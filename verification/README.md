# Nightfall 4: trees, rollup checks, block assembly and block events

A Dafny model of the state-changing core of Nightfall 4, a ZK rollup, with proofs of what it keeps.
`dafny verify dfyconfig.toml` checks the whole project.

| files | what they hold |
|---|---|
| `Field`, `Merkle`, `Paths`, `Grafts`, `Updates` | field elements, the from-scratch tree, paths to the root, sub-trees hung into a tree, write batches |
| `TreeHelpers`, `AppendSpec`, `MutableTree`, `NodeKeys`, `TreeRuns` | the mutable Merkle tree with its write cache, its specification, and runs of operations |
| `HashBinding`, `DryRuns` | what a root binds a prover to, and what a commit leaves after a dry run of another batch |
| `Frontier`, `AppendOnlyTree` | the append-only tree that keeps one hash per level |
| `LinkedRecords`, `IndexedSpec`, `IndexedTree`, `NullifierDb` | the sorted linked list of nullifiers, the indexed tree over it, the in-memory database |
| `NullifierProofs`, `NullifierSoundness` | the verifier of a sub-tree of nullifiers, and what a verified chain proves, whoever made it |
| `Agreement` | proposer and follower process one block from equal trees |
| `RollupChecks` | the circuit constraints, the data they slice, the decider, the contract's transaction hash |
| `BlockProofs` | from the proposer's trees to the proof: the vectors handed over, the circuits over them, and what the contract checks |
| `BlockAssembly`, `DepositRemoval`, `CommitmentSelection`, `Sorting` | which transactions go into a block and what stays in the mempool, which commitments pay |
| `BlockEvents` | client and proposer under a stream of block events |
| `BlockRounds` | a block from its proposer's trees through the events to both its proposer and a follower, and runs of such blocks |
| `PaddedHex` | the keys by which the database orders nullifiers |

How the parts of the system appear here:

- A field element is a number below the BN254 modulus, ordered as such. Additions wrap; where sums are compared as
  numbers the contract says that they do not.
- The hashes are uninterpreted: two functions bundled in `Hasher`, with the one assumption that hashing two zeros
  gives zero, on which the tree's zero defaults depend. SHA-256, commitment hashing and the encoding and decoding of proofs
  are parameters too; of the latter `ReadsBack` assumes that data of the circuits' fixed sizes are read back from
  vectors of a fixed length. `VkCheckIffListed` assumes that the field has no zero divisors.
- A hash into field elements cannot be injective. Where a result needs that nothing collides, it names the pairs and
  triples that are hashed and assumes it of these (`NoCollision`, `CollisionFree`).
- A database collection is a `map` or `seq` field of a class; an absent tree node reads as zero. Every method that
  changes state is proved against a function of the old state, and the promises are proved of those functions.
- The ghost field `leaves` of a tree is the sequence the tree stands for. `Represents` says that each node,
  stored or defaulted, is the hash computed from scratch over it.
- Capacity, which the code does not check tightly, is a stated precondition, or an `Err(Panic)` result where the
  code would index out of range; `GuardAdmitsOverrun` shows what happens beyond it.

Where a promise does not hold of the code, the exact condition is proved:

- A commit after a dry run leaves a sound tree with the committed leaves if and only if the two batches are the same
  up to zeros at the end (`CommitAfterAnyDryRun`). Of equally long batches the nodes are those of committing alone only
  if the two are the same, and the root returned is a mixture of both (`CommitAfterOtherDryRun`).
- The capacity guard of the mutable tree tests the count before the batch, so every batch passes while that is at most
  the number of sub-trees. The root node then sees the part that fits, and the stored root is the value of another
  node (`GuardAdmitsOverrun`, `OverfullTreeOfOne`).
- Deleting deposits from the mempool by secret hash and slot leaves exactly the unselected ones if and only if, in the
  order of fees, none behind the last one taken shares both with one taken or stale (`DepositsConservedIff`); and so for
  every block size and all competing transactions if and only if the groups of four are separate (`AlwaysConservedIff`).
  Otherwise deposits vanish (`SharedKeyLosesDeposits`).
- A selection of commitments succeeds if and only if some cover and, where it takes two, no two values sum past the
  field. The choice is the best one if and only if no pair is overlooked because the sum of the small values wraps
  (`FindUsableCommitments`); then two empty commitments can be returned (`ThreeHalvesAreOverlooked`).
- A node's log is the chain's prefix if and only if the blocks passed are whole and repeat no nullifier
  (`LogIsChainPrefix`, `FollowBlocks`, `FollowChain`): a refused block is counted as passed and never applied, although
  its commitments have been appended by then (`RefusedBlockIsLost`, `SpentNullifierIsFinal`).
- A proposer leaves its trees alone when its own block comes back, and stays in step with its followers, if and only if it
  counts as synchronised, or the contract counts one block, and its commitment root is not zero. Otherwise it appends
  the block a second time (`ProposeAndFollow`).
- A transaction read from the chain is published back in the same words if and only if none of the converted words is the
  modulus itself, which is read as zero, and the last word without its top bit is a field element (`ReadIsPublished`).
- The client's two status updates, which run side by side, agree in all interleavings if and only if no commitment of
  the client is created and spent in the same block (`MarksCommute`).

`update_sub_tree` accepts any power of two of leaves, but works only for one leaf or a full sub-tree: with fewer it
panics, with more it leaves the lowest rows unwritten (`lib/src/merkle_trees/mutable.rs:548-566`). `find_usable_commitments` is documented to report a count of zero
when the value cannot be covered; the code returns an error. The model follows the code in both.

## Model

| member | source | states |
|---|---|---|
| Merkle.ConsistentIsRepresents | lib/src/merkle_trees/mutable.rs:74-105 | A node map with zero defaults is the from-scratch tree over some leaves if and only if every inner node is the hash of its children and the bottom row holds the leaves. |
| Paths.FoldOfSiblingPath | lib/src/merkle_trees/mutable.rs:393-484 | Folding a value over the stored sibling path gives the hash that writing the value would carry to the top. |
| Grafts.WriteRepresents | lib/src/merkle_trees/mutable.rs:318-368 | Hanging a complete sub-tree into a represented tree and rehashing its path yields the from-scratch tree over the spliced leaves, and the path's top is its root. |
| TreeHelpers.MakeCompleteTree | lib/src/merkle_trees/trees.rs:360-384 | The right-to-left fill, two nodes at a time, gives every node of the complete tree, leaves padded with zeros. |
| TreeHelpers.FillInner | lib/src/merkle_trees/trees.rs:376-382 | The loop alone: inner nodes become the hashes of their children when the leaves are in place. |
| TreeHelpers.IndexToDirections | lib/src/merkle_trees/trees.rs:387-398 | One direction a level, by the bits of the index from the lowest on. |
| TreeHelpers.SiblingDirections | lib/src/merkle_trees/mutable.rs:440-480 | The directions in a stored sibling path are the bits of the leaf index. |
| TreeHelpers.GetFrontierIndex | lib/src/merkle_trees/trees.rs:402-419 | The search loop ends, and its result is the exponent of 2 in the next sub-tree count. |
| AppendSpec.AppendRepresents | lib/src/merkle_trees/mutable.rs:286-391 | Appending any number of sub-trees to a from-scratch tree yields the from-scratch tree over the spliced leaves; the hash returned is its root. |
| AppendSpec.DryRunView | lib/src/merkle_trees/mutable.rs:175-213 | At every step a dry run sees, through cache and nodes, exactly what a commit would have written. |
| AppendSpec.CommitAfterDryRun | lib/src/merkle_trees/mutable.rs:107-146 | Committing the leaves just dry-run, reading through the cache and then flushing it, gives the nodes and root of committing alone; the dry run announced that root. |
| AppendSpec.CommitAfterOtherDryRun | lib/src/merkle_trees/mutable.rs:107-146 | With another batch of the same length in the cache, the nodes are those of the dry run, and those of committing alone if and only if the two are the same; the root returned is that of the dry run with the last sub-tree committed. |
| AppendSpec.AppendInjective | lib/src/merkle_trees/mutable.rs:286-391 | Different batches leave different nodes, so the condition above is not idle. |
| DryRuns.RewriteSame | lib/src/merkle_trees/mutable.rs:286-391 | Appending what is seen there already, through the cache, changes nothing that is seen and returns the root. |
| DryRuns.CommitAfterAnyDryRun | lib/src/merkle_trees/mutable.rs:107-146 | After a dry run of any batch, of any length, commit and flush leave the from-scratch tree and root over the committed leaves if and only if the two batches agree up to trailing zeros; only one direction assumes that nothing collides. |
| AppendSpec.CommitSound | lib/src/merkle_trees/mutable.rs:286-391 | A commit with an empty cache, or after the dry run of the same leaves, keeps nodes, root and count those of the from-scratch tree. |
| AppendSpec.BatchesIsDivision | lib/src/merkle_trees/mutable.rs:304-318 | The number of sub-trees and the batch size check are division and remainder by the sub-tree capacity. |
| AppendSpec.MembershipVerifies | lib/src/merkle_trees/mutable.rs:393-484 | In a from-scratch tree the stored sibling path of any node leads from its value to the root. |
| AppendSpec.NextSlotIsZero | lib/src/merkle_trees/mutable.rs:624-673 | The next sub-tree's place in a sound tree is zero. |
| HashBinding.FoldBinds | lib/src/merkle_trees/mutable.rs:393-484 | The only value and siblings that fold to a root from a given place are the tree's own. |
| HashBinding.LeafBinds | lib/src/merkle_trees/mutable.rs:393-484 | A verified leaf is the tree's leaf, and the same path with another value gives the root of the tree with that leaf rewritten. |
| HashBinding.SlotBinds | lib/src/merkle_trees/mutable.rs:624-673 | A proof that a sub-tree's root is zero shows that all its leaves are, and gives the root with the sub-tree filled in. |
| HashBinding.RootBindsLeaves | lib/src/merkle_trees/mutable.rs:74-105 | Two trees have the same root if and only if they have the same leaves up to zeros. |
| MutableTrees.MutableTree.constructor | lib/src/merkle_trees/mutable.rs:37-59 | An empty tree: no nodes, root zero, the from-scratch tree over no leaves. |
| MutableTrees.MutableTree.GetNode | lib/src/merkle_trees/mutable.rs:74-105 | Cache first, then nodes, then zero: the value in the overlaid map. |
| MutableTrees.MutableTree.FlushCache | lib/src/merkle_trees/mutable.rs:107-146 | Cached values overwrite the nodes and the cache is emptied. |
| MutableTrees.MutableTree.JoinAll | lib/src/merkle_trees/mutable.rs:367-368 | Writes to distinct nodes, in any order whatever, have the one effect of the whole batch. |
| MutableTrees.MutableTree.HashPath | lib/src/merkle_trees/mutable.rs:246-264 | The loop up from a node gathers exactly the path's writes, each node once, and the hash at the top. |
| MutableTrees.MutableTree.GraftUpdates | lib/src/merkle_trees/mutable.rs:348-366 | The loops over rows and spans gather each inner node of the sub-tree once, at its place in the tree. |
| MutableTrees.MutableTree.HookSubTree | lib/src/merkle_trees/mutable.rs:318-368 | One sub-tree: its writes and its path's writes go to distinct nodes, to the nodes or to the cache. |
| MutableTrees.MutableTree.AppendBatches | lib/src/merkle_trees/mutable.rs:318-370 | The loop over the batches is the recursive append, for any contents of the cache. |
| MutableTrees.MutableTree.AppendSubTrees | lib/src/merkle_trees/mutable.rs:286-391 | Every branch: bad size, nothing to add, guard, commit with flush, dry run that touches neither nodes nor metadata; the count is returned in leaves. |
| MutableTrees.MutableTree.CommitKeepsSound | lib/src/merkle_trees/mutable.rs:286-391 | The committed state is valid when nothing else was cached, and is that of an append to the plain nodes. |
| MutableTrees.MutableTree.CommitSubTrees | lib/src/merkle_trees/mutable.rs:286-391 | A committed append within capacity keeps the tree valid and splices the leaves in at the count. |
| MutableTrees.MutableTree.InsertLeaf | lib/src/merkle_trees/mutable.rs:215-284 | One leaf at the start of the next sub-tree's run; the count grows by a whole sub-tree; valid within capacity. |
| MutableTrees.MutableTree.UpdateSubTree | lib/src/merkle_trees/mutable.rs:486-590 | Every number of leaves: replaces one leaf or a full sub-tree, panics on a part of one, and with more writes the path and only the upper rows; the root is stored even without `update_tree`; valid when one leaf or sub-tree is committed below the count. |
| MutableTrees.MutableTree.GetMembershipProof | lib/src/merkle_trees/mutable.rs:393-484 | By index: fails exactly beyond the last leaf; in a valid tree the proof has the leaf's value and verifies against the root. |
| MutableTrees.MutableTree.GetMembershipProofOf | lib/src/merkle_trees/mutable.rs:393-484 | By value: any stored node with the value may be found; fails for zero, when there is none, or when the one found is not a leaf; in a valid tree the leaf has the value and the proof verifies. |
| MutableTrees.MutableTree.InsertForCircuit | lib/src/merkle_trees/mutable.rs:624-673 | One path hashes zero to the old root and the new sub-tree's root to the new root; exact error cases. |
| MutableTrees.MutableTree.BatchInsertWithCircuitInfo | lib/src/merkle_trees/mutable.rs:592-622 | Each insertion starts at the root the one before left, over one sub-tree of leaves; the end state is that of a single append of all leaves. |
| MutableTrees.InsertionIsVerified | lib/src/merkle_trees/mutable.rs:624-673 | The emptiness path of the next slot serves both roots. |
| TreeRuns.Step | lib/src/merkle_trees/mutable.rs:215-590 | Any one committed operation keeps the tree valid and changes the leaves as specified. |
| TreeRuns.Run | lib/src/merkle_trees/mutable.rs:215-590 | After any run of committed operations, all nodes and the stored root are those computed from scratch. |
| TreeRuns.RootOfFittingPart | lib/src/merkle_trees/mutable.rs:318-368 | In a batch that runs over the end, the root node becomes the root with the part that fits, whatever follows it. |
| TreeRuns.GuardAdmitsOverrun | lib/src/merkle_trees/mutable.rs:312-314 | Any batch that runs over the end passes the guard; the root node becomes the root with the fitting part, and the stored root is the value of another node, equal only if the two values coincide. |
| TreeRuns.OverfullTreeOfOne | lib/src/merkle_trees/mutable.rs:312-314 | The smallest instance: in a tree of one leaf, a second becomes the stored root. |
| Frontiers.LevelIsNode | lib/src/merkle_trees/append_only.rs:126-160 | A node by level and position is the node of the from-scratch tree. |
| Frontiers.LevelIsFinal | lib/src/merkle_trees/append_only.rs:126-160 | A node with all its leaves present never changes again, so the frontier may keep it. |
| Frontiers.IncrementBits | lib/src/merkle_trees/append_only.rs:151-154 | Adding one carries exactly below the exponent of 2 in the new count. |
| Frontiers.PathLevel | lib/src/merkle_trees/append_only.rs:138-149 | Each step of the path needs a left sibling the frontier still holds, or a right sibling that is zero. |
| Frontiers.FrontierStep | lib/src/merkle_trees/append_only.rs:151-156 | Refreshing the one cell chosen keeps every left sibling that later appends read. |
| Frontiers.ComposedNode | lib/src/merkle_trees/append_only.rs:126-136 | The tree over sub-tree roots is the top of the tree over all leaves. |
| AppendOnlyTrees.AppendOnlyTree.constructor | lib/src/merkle_trees/append_only.rs:32-69 | An empty frontier is right for no leaves. |
| AppendOnlyTrees.AppendOnlyTree.AddSubTree | lib/src/merkle_trees/append_only.rs:126-160 | One sub-tree: the new root from the frontier alone equals the from-scratch root; the last slot panics. |
| AppendOnlyTrees.AppendOnlyTree.AppendSubTrees | lib/src/merkle_trees/append_only.rs:71-187 | Succeeds exactly below capacity and returns the from-scratch root over all leaves ever appended; a trial run changes nothing; the metadata root stays stale. |
| LinkedRecords.LowRecordSkips | lib/src/merkle_trees/indexed.rs:581-606 | In a well-linked list the record found for an absent value skips over it: value below, successor above or none. |
| LinkedRecords.LinksAreCanonical | lib/src/merkle_trees/indexed.rs:487-538 | The links are determined by the values and their indices: two well-linked lists with these in common are equal. |
| LinkedRecords.StoredIsLinked | lib/src/merkle_trees/indexed.rs:487-538 | Storing a new value next to its low record keeps one ascending list with true successors. |
| LinkedRecords.ListVisitsEveryValue | lib/src/merkle_trees/indexed.rs:22-47 | Following the links from zero visits every stored value once, ascending. |
| NullifierDbs.NullifierDb.constructor | nightfall_proposer/src/driven/in_memory_db.rs:8-12 | The zero entry alone is a well-linked list with index 0. |
| NullifierDbs.NullifierDb.GetLowNullifier | nightfall_proposer/src/driven/in_memory_db.rs:59-71 | Found exactly for absent nonzero values; the check on the successor never rejects one. |
| NullifierDbs.NullifierDb.StoreNullifier | nightfall_proposer/src/driven/in_memory_db.rs:14-37 | Succeeds if and only if the value was absent; list and dense indices are kept. |
| NullifierDbs.StoreAll | nightfall_proposer/src/driven/in_memory_db.rs:14-37 | Over any run, exactly the first occurrences succeed, and the keys are those before plus all values met. |
| IndexedSpec.SlotOf | lib/src/merkle_trees/indexed.rs:130-268 | After an admissible batch each slot belongs to its value, and to nobody where the batch has a zero. |
| IndexedSpec.RepairStart | lib/src/merkle_trees/indexed.rs:196-252 | After the append, only the leaves of the low records are out of date. |
| IndexedSpec.RecordsFixRoot | lib/src/merkle_trees/indexed.rs:130-268 | The records determine all leaves, hence the root. |
| IndexedTrees.IndexedTree.constructor | lib/src/merkle_trees/indexed.rs:22-47 | The zero record is stored and its leaf inserted; one sub-tree is used up. |
| IndexedTrees.IndexedTree.GetLowLeaf | lib/src/merkle_trees/indexed.rs:581-606 | The record with the greatest value below, if any. |
| IndexedTrees.IndexedTree.StoreLeaf | lib/src/merkle_trees/indexed.rs:487-538 | Inserts a record with the given or the next index and relinks its low record. |
| IndexedTrees.IndexedTree.GetNonMembershipProof | lib/src/merkle_trees/indexed.rs:49-116 | Succeeds exactly for nonzero absent values; the low record skips the value; in a valid tree the proof verifies against the root. |
| IndexedTrees.IndexedTree.RecordProofVerifies | lib/src/merkle_trees/indexed.rs:49-116 | Every record in the tree proves its place under the root. |
| NullifierProofs.ReplayValues | lib/src/merkle_trees/indexed.rs:299-431 | A verifier's replay leaves one record for each value, in the value's slot. |
| NullifierProofs.PendingStep | lib/src/merkle_trees/indexed.rs:299-431 | Storing a value next to its low record, in the tree or pending, does to the pending records what the verifier's step does. |
| NullifierProofs.LowOfSlot | lib/src/merkle_trees/indexed.rs:299-407 | What accompanies the value of a slot: always a path of the full height and indices below the end of the sub-tree; a pad comes with the zero record, every other value with the hash of its low record, and a pending low record with the new slot and an empty path. |
| IndexedTrees.IndexedTree.InsertOne | lib/src/merkle_trees/indexed.rs:299-407 | One value, all three cases: the low record is the one of the greatest smaller value, with its hash as it stood; in the tree with its membership path, pending with its new slot and an empty path, and a pad with the zero record; the verifier's step accepts it, and takes the root and the pending records before to those after. |
| IndexedTrees.IndexedTree.InsertEach | lib/src/merkle_trees/indexed.rs:299-407 | Succeeds exactly for admissible batches; the proofs replay one after another from the old root to the new one and to the records now pending, and each has the form of its case. |
| IndexedTrees.IndexedTree.PendingEntries | lib/src/merkle_trees/indexed.rs:409-431 | Reads back the records as they are linked in the end, and hashes them; zeros give empty leaves. |
| IndexedTrees.IndexedTree.InsertNullifiersForCircuit | lib/src/merkle_trees/indexed.rs:270-448 | Fails exactly for bad sizes, repeated or stored values and full trees; the emitted data verify, every low record, in the tree or as linked by the values before, the final records, and the slot; and they have the sizes and indices of the sub-tree. |
| IndexedTrees.IndexedTree.BatchInsertNullifiersWithCircuitInfo | lib/src/merkle_trees/indexed.rs:450-466 | For any sub-tree size, chunk by chunk, one chain of roots through all values, the data of every sub-tree having the same lengths; exact condition for success, which chunks of eight meet only with sub-trees of eight or for one short chunk. |
| NullifierSoundness.StepBinds | lib/src/merkle_trees/indexed.rs:299-407 | A low record that verifies is a leaf of the tree, and rewriting it fills or empties no leaf. |
| NullifierSoundness.StepStores | lib/src/merkle_trees/indexed.rs:299-407 | A step that verifies stores a value that was not stored, next to its low record. |
| NullifierSoundness.SubTreeStores | lib/src/merkle_trees/indexed.rs:270-448 | A sub-tree that verifies, whoever made the proofs, holds new values only, and ends at the root of the tree with them stored. |
| NullifierSoundness.ChainStores | lib/src/merkle_trees/indexed.rs:270-466 | A chain that verifies from the root of an indexed tree repeats no stored nullifier and none of its own, and ends at the root of the tree with all of them. |
| NullifierSoundness.OnlyOneRoot | lib/src/merkle_trees/indexed.rs:130-466 | For the next slots, that is the root a follower computes which stores the same values. |
| NullifierSoundness.HeldIsState | lib/src/merkle_trees/indexed.rs:130-268 | A valid indexed tree is a state in the sense of these results. |
| IndexedTrees.IndexedTree.StoreBatch | lib/src/merkle_trees/indexed.rs:130-195 | Stores all values or fails at the first repeated one; returns the low records, sorted, without repetition. |
| IndexedTrees.IndexedTree.BatchLeaves | lib/src/merkle_trees/indexed.rs:196-225 | The new sub-trees' leaves: hashes of the final records, zeros kept. |
| IndexedTrees.IndexedTree.RefreshLows | lib/src/merkle_trees/indexed.rs:227-267 | Rewriting the low records' leaves brings every leaf up to date; the last root is returned, zero when there was none. |
| IndexedTrees.IndexedTree.InsertLeaves | lib/src/merkle_trees/indexed.rs:130-268 | The one-shot insertion keeps the tree valid, assigns the slots as indices, and returns the stored root, or zero for a batch of zeros. |
| Agreement.BlockCarriesProvedValues | nightfall_proposer/src/ports/proving.rs:62-76 | The block's transactions flatten to the very commitments and nullifiers that were proved, deposits first. |
| Agreement.IndicesDetermineTree | lib/src/merkle_trees/indexed.rs:130-466 | Two indexed trees with the same indices have the same records, nodes and root. |
| Agreement.ValidTreesAgree | lib/src/merkle_trees/indexed.rs:130-466 | Reachable indexed trees with equal indices, counts and stored positions are equal. |
| Agreement.NullifiersBothWays | lib/src/merkle_trees/indexed.rs:130-466 | The eight-at-a-time insertion with proofs and the one-shot insertion succeed alike and end in the same state. |
| Agreement.CommitmentsBothWays | lib/src/merkle_trees/mutable.rs:286-622 | The batch insertion with proofs and the single append end in the same tree. |
| Agreement.ProveAndFollow | nightfall_proposer/src/driven/rollup_prover.rs:835-866 | A block proved by one node and replayed by another from equal trees gives equal roots and equal trees, when its nullifiers are fresh. |
| RollupChecks.LayoutRoundTrip | nightfall_proposer/src/driven/rollup_prover.rs:962-1009 | The circuit's slices recover every part of the flattened data of two transactions. |
| RollupChecks.ExtraReadsBack | nightfall_proposer/src/driven/rollup_prover.rs:234-257 | Splitting the vector in half recovers the data of all four transactions. |
| RollupChecks.HeadedReadsBack | nightfall_proposer/src/driven/rollup_prover.rs:962-1009 | With the three lengths in front of each half, the vector alone tells the halves apart and gives back all data. |
| RollupChecks.GivenRootFolds | nightfall_proposer/src/driven/rollup_prover.rs:246-272 | In each half of its vector, a satisfied base circuit has folded every one of the eight roots along the path beside it to the value behind that path. |
| RollupChecks.GivenInsertionsVerify | nightfall_proposer/src/driven/rollup_prover.rs:274-312 | And it has verified the commitment insertion and the nullifier insertion that follow in that half. |
| RollupChecks.BaseIffLinked | nightfall_proposer/src/driven/rollup_prover.rs:234-383 | A base circuit holds exactly when its parts verify and its two insertions link; its output describes them. |
| RollupChecks.MergeIffLinked | nightfall_proposer/src/driven/rollup_prover.rs:392-467 | The merge equalities hold exactly when the two parts' chains join to one. |
| RollupChecks.SatisfiedIffLinkedBn | nightfall_proposer/src/driven/rollup_prover.rs:234-435 | Any tree of circuits is satisfied if and only if its data can be read and all its insertions form one verified, unbroken chain; the output names its ends and, as long as it is a field element, the sum of all fees. |
| RollupChecks.SatisfiedIffLinkedGr | nightfall_proposer/src/driven/rollup_prover.rs:437-467 | The same for the alternating merge circuit, which adds in the other field. |
| RollupChecks.LinkedIffChained | nightfall_proposer/src/driven/rollup_prover.rs:314-322 | Linked insertions are precisely the chains that the trees emit. |
| RollupChecks.BlockProvedIffChained | nightfall_proposer/src/driven/rollup_prover.rs:469-529 | The decider holds exactly for one chain and an old historic root with the path's place empty; all eight outputs, the fee as long as the sum is a field element. |
| RollupChecks.HistoricRootMoves | nightfall_proposer/src/driven/rollup_prover.rs:930-953 | The path read after the dry run, through the cached nodes, leads from zero to the stored root and from the new commitment root to the tree's next root. |
| RollupChecks.ProvedNullifiersAreNew | nightfall_proposer/src/driven/rollup_prover.rs:234-529 | When the decider holds from the root of an indexed tree, none of the nullifiers inserted was in that tree or occurs twice, and the new root is that of the tree with them stored. |
| RollupChecks.PublicHash | blockchain_assets/contracts/Nightfall.sol:209-226 | The contract's in-place pairing loop is the level-by-level reduction of all transaction hashes. |
| RollupChecks.BalancedShaBn | nightfall_proposer/src/driven/rollup_prover.rs:345-435 | In a complete tree of circuits the hash put out is that reduction over the transactions in order. |
| RollupChecks.BalancedShaGr | nightfall_proposer/src/driven/rollup_prover.rs:437-467 | The same for the two hashes of the alternating circuit. |
| RollupChecks.BlockHash | nightfall_proposer/src/driven/rollup_prover.rs:469-529 | For blocks of 16, 64, 256, 1024, ... transactions the decider's hash is the contract's. |
| RollupChecks.VkCheckIffListed | nightfall_proposer/src/driven/rollup_prover.rs:695-716 | The product constraint holds if and only if the hash is in the list. |
| BlockProofs.PublishRoundTrip | nightfall_client/src/driven/contract_functions/contract_type_conversions.rs:214-262 | A transaction can be put into the words of the contract if and only if its fifth secret is a bit, and is then read back as it was. |
| BlockProofs.ReadIsPublished | nightfall_proposer/src/driven/block_assembler.rs:292-329 | Words that can be read are those of the transaction read if and only if none is the modulus itself and the last without its top bit is a field element. |
| BlockProofs.CircuitHashIsContracts | nightfall_proposer/src/driven/rollup_prover.rs:345-383 | The circuit's slice of a transaction's public inputs hashes to the contract's hash of its four commitments, four nullifiers and four words of public data. |
| BlockProofs.ContractPublicHash | blockchain_assets/contracts/Nightfall.sol:195-226 | The contract hashes each transaction, and then level by level. |
| BlockProofs.BlockHashes | nightfall_proposer/src/ports/proving.rs:62-76 | Transaction by transaction, deposits first, the published block hashes to what the circuits hash of the proved inputs, and carries their fees. |
| BlockProofs.ImtIsFormed | nightfall_proposer/src/driven/rollup_prover.rs:292-303 | Every nullifier insertion that the tree emits has the sizes by which the circuit reads it, and its indices are field elements. |
| BlockProofs.HalfReads | nightfall_proposer/src/driven/rollup_prover.rs:246-312 | The data laid out for two transactions are read back: the two insertions, and a path for each of the eight roots. |
| BlockProofs.QuadsAreRead | nightfall_proposer/src/driven/rollup_prover.rs:962-1016 | The base circuits over all emitted data can be read, and are about all transactions and insertions of the block in order. |
| BlockProofs.PartOfBasesBn | nightfall_proposer/src/driven/rollup_prover.rs:392-435 | Any tree of circuits is about what its base circuits are about, in order. |
| BlockProofs.HistoricProof | nightfall_proposer/src/ports/trees.rs:190-218 | The root of a client proof is looked up among the historic roots, zero in the first place; the path found leads from it to the current root. |
| BlockProofs.ProveRoots | nightfall_proposer/src/driven/rollup_prover.rs:874-905 | Each different root is looked up once; every transaction gets the proofs of its four roots with the current root behind each. |
| BlockProofs.AuxiliaryVectors | nightfall_proposer/src/driven/rollup_prover.rs:962-1009 | For each four transactions two halves behind their lengths: the roots, their proofs, and an insertion of each kind. |
| BlockProofs.AnnounceRoot | nightfall_proposer/src/driven/rollup_prover.rs:912-948 | The next historic root by a dry run, and the path of its place, which leads from zero to the old root and from the new commitment root to the next one. |
| BlockProofs.InsertBlock | nightfall_proposer/src/driven/rollup_prover.rs:835-866 | With room among the historic roots, succeeds exactly when the nullifiers are new and there is room for them and the commitments; the contents are in the trees once, and the data emitted are chains of one insertion of each kind for two transactions. |
| BlockProofs.PrepareStateTransition | nightfall_proposer/src/driven/rollup_prover.rs:797-1050 | Succeeds when the block fits and all roots are found, and only if it fits; all roots of deposits and clients are among the historic ones; trees, roots and vectors as the proof needs them. |
| BlockProofs.PreparedHasDecider | nightfall_proposer/src/driven/rollup_prover.rs:962-1050 | For every block of 16 * 4^k transactions that is prepared there is a complete tree of circuits over its vectors. |
| BlockProofs.ProposedBlockIsProved | blockchain_assets/contracts/Nightfall.sol:660-729 | Completeness: over the vectors prepared for a block, every complete tree of circuits is satisfied, and its public output is what the contract checks: its hash over the published transactions, the roots before and after of all three trees, and the sum of the published fees while that is a field element. |
| CommitmentSelection.CalculateMinimumCommitments | nightfall_client/src/services/commitment_selection.rs:195-211 | One if a single commitment covers, else two if a pair does, else an error: if and only if one covers or no two values sum past the field; otherwise an error where two cover. |
| CommitmentSelection.FindSubsetTwoCommitments | nightfall_client/src/services/commitment_selection.rs:163-192 | A pair returned covers. When no two values sum past the field it has the least sum of all pairs that cover, and nothing is returned exactly when none does. |
| CommitmentSelection.FindSubsetCommitments | nightfall_client/src/services/commitment_selection.rs:124-157 | The first sufficient commitment; or a pair of insufficient ones that covers, or nothing; a best pair, when small values do not sum past the field and their field sum reaches the target. |
| CommitmentSelection.ChoiceMeetsCandidate | nightfall_client/src/services/commitment_selection.rs:73-157 | Every covering choice of one or two is matched by what the candidates range over. |
| CommitmentSelection.PreferredIsBest | nightfall_client/src/services/commitment_selection.rs:98-110 | Least change first, more commitments on equal change: the first candidate is a best choice. |
| CommitmentSelection.UnseenPairs | nightfall_client/src/services/commitment_selection.rs:150-155 | When the wrapped sum of the small values hides the pairs, the selection is a best choice exactly if no hidden pair is as good. |
| CommitmentSelection.SelectCommitment | nightfall_client/src/services/commitment_selection.rs:73-122 | What is selected covers unless all pairs were overlooked; when no two values below the target sum past the field it is a best choice if and only if no pair is overlooked. |
| CommitmentSelection.FindUsableCommitments | nightfall_client/src/services/commitment_selection.rs:29-71 | Succeeds if and only if one commitment covers, or two do and no two values sum past the field. When small values do not, the change is least, with two small ones on ties, if and only if no pair is overlooked; always when the values do not sum past the field. |
| CommitmentSelection.NothingOverlooked | nightfall_client/src/services/commitment_selection.rs:134-155 | Without wrap-around no pair is overlooked. |
| CommitmentSelection.ThreeHalvesAreOverlooked | nightfall_client/src/services/commitment_selection.rs:134-155 | Three commitments of half the field: any two cover the target and none does alone, yet the pairs are skipped, so two defaults come back. |
| BlockAssembly.GroupDeposits | nightfall_proposer/src/services/assemble_block.rs:326-345 | The fill-and-clear loop forms groups of four and pads the last. |
| BlockAssembly.GroupsFlatten | nightfall_proposer/src/services/assemble_block.rs:326-345 | All groups have four deposits and flatten to the input and fewer than four defaults. |
| BlockAssembly.SelectionConserves | nightfall_proposer/src/services/assemble_block.rs:326-377 | Selected and unselected candidates together hold each fresh deposit and transaction once. |
| BlockAssembly.SelectionIsOptimal | nightfall_proposer/src/services/assemble_block.rs:329-366 | No way to fill the slots with up to four deposits or one transaction each earns a higher total fee. |
| BlockAssembly.RemovalIsExact | nightfall_proposer/src/driven/db/mongo_db.rs:187-217 | Deleting by key leaves exactly the unselected fresh items if and only if their keys are separate from the deleted ones. |
| BlockAssembly.DistinctDepositsAreConserved | nightfall_proposer/src/services/assemble_block.rs:300-385 | With distinct keys, each fresh deposit is selected or still in the mempool, and nothing else is. |
| BlockAssembly.DistinctTransactionsAreConserved | nightfall_proposer/src/driven/db/mongo_db.rs:98-113 | With distinct hashes, each fresh client transaction is selected or still marked in the mempool, and nothing else is. |
| BlockAssembly.SharedKeyLosesDeposits | nightfall_proposer/src/services/assemble_block.rs:379-381 | With too many deposits under one key, some are in no block and in no mempool. |
| DepositRemoval.FirstGroupsTaken | nightfall_proposer/src/services/assemble_block.rs:326-377 | The stable sort keeps groups in order, so the groups selected are the first of those formed. |
| DepositRemoval.DepositsConservedIff | nightfall_proposer/src/services/assemble_block.rs:326-385 | In terms of the mempool: what is left is exact if and only if no fresh deposit behind the last one taken, in the order of fees, shares its key with one taken or stale. |
| DepositRemoval.AlwaysConservedIff | nightfall_proposer/src/services/assemble_block.rs:326-385 | Exact for every block size and all competing transactions if and only if the groups of four share no key with each other or with stale deposits. |
| DepositRemoval.TopFourDecide | nightfall_proposer/src/services/assemble_block.rs:346-352 | Only the four highest fees decide whether any group's total wraps. |
| BlockAssembly.Mempool.PrepareBlockData | nightfall_proposer/src/services/assemble_block.rs:228-387 | Stale items go in any case; succeeds exactly for an allowed size when some deposit's commitment is not on chain or some transaction has no nonzero commitment on chain; no item selected but the padding has one; returns the selection and deletes it. |
| BlockAssembly.MakeBlock | nightfall_proposer/src/services/assemble_block.rs:170-226 | Keeps the given groups, fills up with default groups to exactly the block size, rejects groups not of four. |
| BlockAssembly.AssembleBlock | nightfall_proposer/src/services/assemble_block.rs:58-146 | A block is assembled exactly if the size is 64, 256 or 1024 and some deposit or transaction has no commitment on chain; it has exactly the block size, and nothing in it but the padding has a commitment on chain. No block that could be filled from the other items has a higher total fee, unless some four deposits' fees sum past the field. With distinct keys each item not on chain is in the block or still in the mempool, once, and nothing else is left. |
| BlockEvents.PassedInOrder | nightfall_proposer/src/driven/nightfall_event.rs:196-259 | In any stream, whatever gets stored in between, the blocks passed have consecutive numbers, each once; the log grows by those taken. |
| BlockEvents.AllTakenIffChainTakes | nightfall_proposer/src/driven/nightfall_event.rs:281-324 | If blocks are judged by the trees' rule while all went well, all are taken exactly when they are whole and repeat no nullifier. |
| BlockEvents.RepeatedNullifierEndsChain | nightfall_proposer/src/driven/nightfall_event.rs:281-324 | No chain can be followed past a block with a nullifier of an earlier one. |
| BlockEvents.LogIsChainPrefix | nightfall_client/src/driven/event_handlers/nightfall_event.rs:151-242 | From any stored blocks, the log is blocks 0 to expected - 1 of the chain if and only if these are whole and repeat no nullifier. |
| BlockEvents.StreamsAgree | nightfall_client/src/driven/event_handlers/nightfall_event.rs:151-242 | Nodes that passed equally many blocks of a chain that can be followed, from different streams and stored blocks, applied the same blocks. |
| BlockEvents.RefusedBlockIsLost | nightfall_proposer/src/driven/nightfall_event.rs:259-324 | A block refused after the number moved on is skipped when its event comes again. |
| BlockEvents.MismatchPassesNextTime | nightfall_proposer/src/driven/nightfall_event.rs:228-250 | A hash mismatch changes only the stored block, and the next event with the number passes. |
| BlockEvents.NoMismatchFromFresh | nightfall_client/src/driven/event_handlers/nightfall_event.rs:208-242 | A node that stores blocks only here never meets a mismatch, so it moves on exactly when the expected number comes. |
| BlockEvents.StoredBlockDecides | nightfall_proposer/src/driven/nightfall_event.rs:212-250 | For a hash without collisions, a block stored at the expected number lets an event pass if and only if it has the same commitments and the same proposer. |
| BlockEvents.TakenBlockIsStored | nightfall_proposer/src/driven/db/mongo_db.rs:325-351 | A block that is taken is stored with its number, commitments and sender; the other stored blocks stay. |
| BlockEvents.MarksCommute | nightfall_client/src/driven/event_handlers/nightfall_event.rs:339-346 | All interleavings of the two concurrent status updates agree if and only if no own commitment is created and spent in one block. |
| BlockEvents.MarkedMeans | nightfall_client/src/driven/db/mongo.rs:498-533 | What that is, entry by entry: unspent when created only, spent when spent only, one of the two when both, and unchanged otherwise; nullifiers never change. |
| BlockEvents.MarkBoth | nightfall_client/src/driven/event_handlers/nightfall_event.rs:339-346 | Two updates going through the entries in any order, each between the steps of the other: each entry ends as one order or the other makes it. |
| BlockEvents.ClientNode.constructor | nightfall_client/src/driven/event_handlers/nightfall_event.rs:45-48 | A fresh client expects block 0 and has an empty tree. |
| BlockEvents.ClientNode.ApplyContents | nightfall_client/src/driven/event_handlers/nightfall_event.rs:278-346 | Appends the block's commitments to the tree, or refuses and changes nothing; marks the client's entries, each in either order. |
| BlockEvents.ClientNode.ProcessProposeBlock | nightfall_client/src/driven/event_handlers/nightfall_event.rs:137-473 | Every branch of the handler; the tree always holds exactly the applied blocks' commitments; after a block is taken, an entry created and not spent is unspent, one spent and not created is spent, one that is both is either, and any other is as before. |
| BlockEvents.FollowChain | nightfall_client/src/driven/event_handlers/nightfall_event.rs:137-473 | After any stream of a chain's events, from any stored blocks, the tree holds the commitments of the applied blocks under their root; these are the blocks 0 to expected - 1 if and only if their commitments are whole. |
| BlockEvents.NewHistory | nightfall_proposer/src/lib.rs:126-140 | The historic roots' tree starts with one leaf, zero. |
| BlockEvents.ProposerNode.constructor | nightfall_proposer/src/lib.rs:116-142 | A fresh proposer with its three trees. |
| BlockEvents.ProposerNode.UpdateTrees | nightfall_proposer/src/driven/nightfall_event.rs:281-324 | Commitments, then nullifiers; succeeds exactly when both trees take them; what each tree holds then, also after a refusal of the nullifiers. |
| BlockEvents.ProposerNode.AppendHistoricRoot | nightfall_proposer/src/driven/nightfall_event.rs:326-334 | The historic roots are those of the applied blocks, in order, also when the dry run of this root is in the cache. |
| BlockEvents.ProposerNode.ApplyBlock | nightfall_proposer/src/driven/nightfall_event.rs:259-364 | When the trees are updated and when not, what they hold then, the synchronisation flag, and what a refusal leaves. |
| BlockEvents.ProposerNode.ProcessProposeBlock | nightfall_proposer/src/driven/nightfall_event.rs:142-367 | Every branch of the handler, what the three trees hold afterwards, and that the history is that of the applied blocks. When the trees are updated is tied down by `ProposeAndFollow` and `FollowBlocks`. |
| BlockEvents.NextUpdates | nightfall_proposer/src/driven/nightfall_event.rs:264-287 | A node that has yet to reach the blocks it counts on chain updates its trees from the next one, also from its own, and also from the first when that is the only one. |
| BlockEvents.FollowBlocks | nightfall_proposer/src/driven/nightfall_event.rs:142-367 | A proposer that starts with empty trees when the contract counts some number of blocks, any of which may be its own, and is then fed any stream of the chain's events, from any stored blocks, refuses a block exactly if the chain cannot be followed with it; until then historic roots, commitments and nullifier indices are those of blocks 0 to expected - 1. |
| BlockEvents.SpentNullifierIsFinal | nightfall_proposer/src/driven/nightfall_event.rs:259-324 | A block with a nullifier the node holds is refused; its number is passed, its commitments stay, and its next delivery does nothing. |
| BlockRounds.Propose | nightfall_proposer/src/services/assemble_block.rs:110-146 | A node prepares a block and stores it, with itself as proposer, under the number of blocks stored. |
| BlockRounds.TakeOwn | nightfall_proposer/src/driven/nightfall_event.rs:264-334 | When its own block comes back to a synchronised proposer with a nonzero commitment root, its trees stay as they are and the historic root is appended; otherwise the commitments are appended again. |
| BlockRounds.Deliver | nightfall_proposer/src/driven/nightfall_event.rs:281-364 | A follower that was in step takes the block and ends with the proposer's trees and the three roots proved. |
| BlockRounds.ProposeAndFollow | nightfall_proposer/src/driven/nightfall_event.rs:142-367 | A block prepared by one node and delivered to both: the follower answers Ok and ends with the three roots that were proved and published; the proposer answers Ok, has the contents once, and is in step again, if it counts as synchronised and its commitment root is not zero, and otherwise is not. |
| BlockRounds.Rounds | nightfall_proposer/src/driven/nightfall_event.rs:142-367 | In any run of blocks proposed by either of two nodes, the two agree on trees, history and position after every block; no nullifier is spent twice in the run or was spent before; the run stops only at a block that spends one again, names an unknown root, leaves the root zero, or finds the history full. |
| PaddedHex.BytesToHexLpadded | lib/src/serialization.rs:70-81 | The written string is the hexadecimal of the bytes behind zeros, of fixed width. |
| PaddedHex.SerializeToPaddedHex | lib/src/serialization.rs:56-68 | The loop's output is the stored form. |
| PaddedHex.PaddedHexRoundTrip | lib/src/serialization.rs:95-127 | Every field element is read back as itself. |
| PaddedHex.PaddedHexOrder | lib/src/serialization.rs:56-81 | String order is numeric order, for all field elements. |
| PaddedHex.StringQueryFindsLow | lib/src/merkle_trees/indexed.rs:589-595 | The sorted string query returns the greatest smaller value. |

## Left out

- Database, network and I/O errors, locks, task scheduling, logging: collections are fields, awaits are sequential steps.
- The width of indices (32 and 64 bits): counts and indices are unbounded.
- MutableTrees.MutableTree.GetMembershipProof: with debug logging on, an index past the last leaf given without a value panics in the log line (lib/src/merkle_trees/mutable.rs:444-448) where the model has the error, also below InsertForCircuit.
- TreeRuns.Run: operations must stay within capacity, which the code does not check tightly.
- AppendOnlyTrees.AppendOnlyTree.AppendSubTrees: nothing is said of the metadata root, which the code never refreshes.
- IndexedTrees.IndexedTree.InsertLeaves: requires room for the batch; after a failure some values of the batch stay stored as records, as in the code, and the tree is not valid any more.
- BlockEvents.ProposerNode.ProcessProposeBlock: when it passes a block it requires room in the trees, and that no dry run of a different historic root is pending; `CommitAfterAnyDryRun` says what a pending one would do.
- BlockEvents.FollowBlocks: own blocks are those proposed before the node lost its trees; what a proposal does to the trees is in `ProposeAndFollow`, and what it stores is any change of the stored blocks.
- BlockRounds.ProposeAndFollow: starts from nodes that have stored just the blocks they passed, with no dry run pending; requires room for the block's contents twice, since the proposer may append them twice; a failed preparation may leave its contents in the trees, as in the code.
- BlockProofs.PrepareStateTransition: one root may be found in any place where it is stored; when an inner node has its value too, the lookup may fail.
- BlockEvents.ClientNode.ProcessProposeBlock: decrypting and storing newly received commitments, request statuses and notifications are not modelled, so their failures are not either.
- CommitmentSelection.FindUsableCommitments: when one commitment covers and two values below the target sum past the field, the choice is only shown to cover; marking the result as pending is not modelled.
- BlockAssembly.SelectionIsOptimal: requires that the fees of no four deposits that are grouped sum past the field.
- BlockAssembly.Mempool.PrepareBlockData: commitment hashes are given by a function, the commitments on chain as a set.
- RollupChecks.SatisfiedIffLinkedBn: proof verification, accumulation and the library's insertion gadgets are not part of this model; `InsertionVerifies` and `NullifiersVerify` say what is taken from the latter. How the library consumes the lengths before each half, and whether it ties the inserted values and the given roots to the transactions' public inputs, is not in the checks modelled; the root that a membership proof folds to is a value that the prover gives. `BaseFor` says how the lengths are taken to be consumed, and `Assembled` how the vectors go to the circuits.
- NullifierSoundness.ChainStores: assumes that what is hashed does not collide, that no leaf hashes to zero, and that the low records' links are given as field elements.
- Restart of the event listeners and the on-chain query of the synchronisation status: runs between restarts are modelled.
- Triggers, retries, queues, REST, wallets, certificates, key files, encryption, and contract type conversions other than those of transactions.
