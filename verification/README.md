# zERC20, verified in Dafny

zERC20 appends every token transfer to a Merkle tree and a hash chain, proves each new tree root with a folded
step circuit, and lets a recipient withdraw what was sent to "burn addresses" whose secrets it knows. This project
models that system from the database tables up to the contracts and proves what it is for:

* **nothing is minted that was not burned**, over every run of any number of chains, one hub, delayed, repeated
  and reordered messages, and any proofs anyone submits (`Conservation.MintedNeverExceedsBurned`); so what
  **circulates never exceeds the deposits** and what was taken out of burn addresses already redeemed
  (`Circulation.CirculationNeverExceedsDeposits`); and
  **whatever was burned can be redeemed**, against local and global roots, in batches and alone, exactly when the
  recipient's address is not zero and the contract's own conditions hold (`Redemption.BurnedIsMinted`,
  `Redemption.BurnedIsMintedAlone`), on **whichever chain** it was burned: every proved transfer reaches every chain
  (`Delivery.TransfersReachEveryChain`, `Delivery.BurnedIsPaidAnywhere`);
* the **two folded circuits** mean what they should: exactly which runs are accepted, and that every accepted root
  run appends exactly its transfers and every accepted withdraw run sums distinct burned leaves;
* the **tree in the database** equals the plain Merkle tree, now and at every retained past index;
* the **indexing pipeline** (event sync, ingestion, root prover) keeps its promises when every job runs
  beside every other and may stop before any database write, and a due root submission happens;
* the **lease** and the **job queue** are safe over all interleavings, a lease ends when its holder dies, and a job's
  record says what its prover returned;
* the **client** builds exactly the batches the circuit accepts.

Where a promise is false of the code, the code is kept, the failing case is shown, and the exact condition is proved.

## How it is modelled

**Hashes.** Poseidon, the SHA-256 hash chain cut to 248 bits (section 6.2 of FIPS 180-4 with the top byte dropped) and
the recipient hash are function parameters (`Crypto.Suite`); nothing is assumed about them. On a finite field
collisions always exist, so "or there is a collision" would be empty. Soundness theorems instead name a
*function of the run* (`PathBreach`, `RootRunBreach`, `RunBreach`, `ExecBreach`, ...) and prove that either
it returns `NoBreach` and the claim holds, or what it returns is a genuine collision, zero preimage or burn-window
collision (`Crypto.Genuine`).

**Field.** `P` is the BN254 scalar field order. The range, comparison and selection gadgets are modelled
bit by bit over `P`, and each has an if-and-only-if lemma over the integers.

**Proofs.** A folded proof is a run of the step relation that held at every step. The inner workings of the proof
systems are not modelled.

**Database and concurrency.** Tables are maps and sequences held in class fields. Each database transaction, each
single statement outside a transaction, and each Redis command is one atomic step; `prove_many` is taken
as one step. Jobs that run concurrently appear as interference methods (`TreeJob.OtherSync`, `TreeJob.OtherIngest`,
`ProverChain.Verifier.Others`, `RootProver.Job.OtherJobs`, `Queue.Service.Others`). In the root prover they run before
every write, between the two reads of a cycle, before every proof that is built, and between reserving and sending; a
cycle is stopped after any given number of writes. Events are immutable once emitted, block numbers do not decrease
along the log, and a node answers event queries truthfully. For `latestProvedIndex` it may answer any index that
was ever proved; what monotone answers give in addition is stated separately.

**Heights** are parameters (`Contracts.Net`); `Conservation.DeploymentIsValid` shows the deployed 40 and 6 are admissible.

Some invariants are stated behind a quantifier triggered by the always true predicate `Base.LooksInside`. This
changes nothing in their meaning; it keeps the solver from unfolding them where a proof does not look inside.

| file | models |
|---|---|
| `Base.dfy`, `Field.dfy`, `Crypto.dfy`, `Sums.dfy` | shared definitions, field and gadgets, hashes and breaks, sums over sets |
| `Merkle.dfy`, `Blocks.dfy` | Merkle trees and paths; when two subtrees have one hash |
| `Burn.dfy`, `Bytes.dfy`, `Payment.dfy` | burn addresses and proof of work; byte conversions; the client's burn address records |
| `RootCircuit.dfy`, `WithdrawCircuit.dfy` | the step circuits and their runs |
| `Contracts.dfy`, `Invariant.dfy`, `Openings.dfy` | token, verifier, hub; what holds in every state; what teleports open |
| `Conservation.dfy`, `Circulation.dfy` | conservation over all runs; balances and circulation |
| `Aggregation.dfy` | the in-place aggregation root |
| `TreeTables.dfy`, `DbTree.dfy` | node table, undo log, snapshots; append, prune, prove |
| `EventSync.dfy`, `TreeJob.dfy` | event sync and tree ingestion |
| `ProverTables.dfy`, `ProverChain.dfy`, `RootProver.dfy` | the root prover's tables, the chain it works against, the job |
| `Lease.dfy`, `Queue.dfy` | the lease protocol and the decider queue |
| `BatchBuilder.dfy`, `Redemption.dfy` | global paths and batch construction; redeeming what was burned |
| `Delivery.dfy` | what each contract call brings about; transfers that reach every chain |

## What turned out differently from what one would expect

* A recipient whose address is zero can be burned to by anyone and redeemed by no one: the token refuses to mint to it
  (`Redemption.ZeroAccountIsNeverPaid`).
* Withdrawals are logged as transfers to the zero address, so a burn address that is zero would redeem them; this takes a
  preimage of 172 zero bits (`Circulation.CirculationNeverExceedsDeposits`).
* Nothing stops `append_leaf` on a full tree: the stored root becomes the root of the block that holds the last leaf. It is
  the Merkle root up to `2^height` leaves (`TreeTables.BlockRootIsRoot`), and beyond exactly when the last block holds the
  same leaves as the first one, or there is a collision (`TreeTables.BlockRootIff`, `TreeTables.OverflowedTrees`).
* Raising the history window after pruning lets `prove_many` accept targets below the pruning floor, with siblings of the
  floor's tree (`DbTree.Tree.RaisedWindow`). Exactly which proofs still lead to their root is `TreeTables.RebuiltProofGood`
  with `TreeTables.RebuildableIff`: of the leaves in the target's last block, those whose target is at or above the floor
  or ends its block or stands before a zero leaf; of other leaves, those whose block repeats the leaves of the target's.
* The undo log keeps rows that no proof ever reads: a kept row is read by some admitted proof exactly when it belongs to a
  right child (`DbTree.Tree.KeptRowReadIff`, `TreeTables.LeftLeafIsNeverRead`).
* `scan_chunked` never ends when the overlap is at least the span and the range needs more than one chunk;
  the configuration does not check this (`EventSync.ScanEndsIff`). With an overlap above the span such a scan also starts
  chunks below its range, unless that starts at block zero (`EventSync.ScanStaysInRangeIff`).
* `upsert_ivc_proof` does not update `start_index` on conflict, so a recovered row can carry a stale start
  (`ProverTables.StartColumnIff`); nothing reads the column.
* If an answer for `latestProvedIndex` falls back to the stored base after an alignment stopped between its delete and its
  write (a lagging fallback node, or submission switched off, which reads as zero), the prover is left without the proof
  it continues from, and only then (`RootProver.Job.ProcessToken`, `RootProver.Job.Run`); every state with compiled proofs
  has such a continuation once another index within the window is proved (`RootProver.FallingAnswerMisses`).
* `from_bytes` of a burn address checks length and version only; what it returns could have been built exactly when the
  address is an EVM one and the secret has proof of work (`Payment.DecodedIsBuildableIff`).
* The dummy step that pads a one-step root proof is refused on a full tree (`RootCircuit.DummyRootStep`), so the very last
  root cannot be submitted when it is the only new one.
* The agreement of single and batch withdrawal fails for the last leaf of the tree, which no later dummy can follow
  (`WithdrawCircuit.TwoStepExistsIff`).
* A delete that a dropped lease guard left pending can remove the row of the same process's next guard
  (`Lease.LateDeleteBreaksExclusion`); `Lease.LeaseRunIff` gives the exact condition.
* A job whose payload does not decode, or whose worker dies, keeps its status forever, and resubmitting it is answered
  with that status (`Queue.DroppedJobStays`).
* `proveTransferRoot` ignores the old hash chain of the proof. This gives no freedom: the new chain binds the whole history
  (`Invariant.ProveSound`).
* `indexer/README.md` gives a tree height of 64 from an environment variable; the code fixes it to 40. The model
  follows the code.

## Model

| member | source | states |
|---|---|---|
| `Conservation.MintedNeverExceedsBurned` | contracts/src/Verifier.sol:279-305 | in every run from deployment the total minted by teleports is at most the value of the opened transfers, each an existing transfer to a burn address whose secret was shown and counted for one account only, or the run yields a genuine hash break |
| `Circulation.CirculationNeverExceedsDeposits` | contracts/src/zERC20.sol:62-112 | in every run from deployment, the tokens held outside opened burn addresses on all chains together with those withdrawn are at most those deposited plus the value ever sent out of opened burn addresses, or the run yields a genuine break |
| `Circulation.UntouchedBurnsCirculation` | contracts/src/zERC20.sol:62-112 | as long as no opened burn address sent any value, transfers of nothing aside, what circulates and what was withdrawn is at most what was deposited, or the run yields a genuine break |
| `Circulation.StepKeepsMoney` | contracts/lib/openzeppelin-contracts-upgradeable/contracts/token/ERC20/ERC20Upgradeable.sol:227-306 | every call keeps balances adding up to the supply, every account holding what it received less what it sent, and all supplies adding up to deposits and mints less withdrawals |
| `Conservation.StepKeeps` | contracts/src/Verifier.sol:176-335 | every accepted call or message keeps the system invariant, or reveals a genuine break |
| `Invariant.ProveSound` | contracts/src/Verifier.sol:189-217 | an accepted root proof stores the root of the token's own log prefix and never pauses, although the old hash chain is not checked, or there is a genuine break |
| `Conservation.EmergencyNeedsBreach` | contracts/src/Verifier.sol:206-211 | the emergency pause on conflicting roots fires only with a genuine break in hand |
| `Openings.TeleportKeeps` | contracts/src/Verifier.sol:279-305 | minting only the difference to what the account already received keeps every account covered by the transfers it opened |
| `Openings.GlobalOpenSound` | contracts/src/Verifier.sol:229-273 | an opening under an aggregation root shows a transfer of the chain in that slot, or a genuine break |
| `Conservation.MessageKeeps` | contracts/src/Hub.sol:111-267 | registration, relays, broadcasts and deliveries in any order and any number keep slots and global roots true |
| `Conservation.DeploymentIsValid` | zkp/src/nova/constants.rs:1-3 | heights 40 and 6 satisfy what the proofs need |
| `Delivery.TransfersReachEveryChain` | contracts/src/Hub.sol:155-267 | from any state that keeps the invariant, a relay of a registered chain, its delivery, a broadcast and its receipt give any chain a global root under which every transfer proved on the first chain is a leaf at its slot, or a root is zero |
| `Delivery.BurnedIsPaidAnywhere` | contracts/src/Verifier.sol:257-335 | a proved transfer of one chain to a burn address of a recipient on another is then paid there by a single proof exactly under the contract's conditions |
| `Delivery.DeliveryUpdatesSlot` | contracts/src/Hub.sol:247-267 | a message is accepted exactly when sent and its chain registered; it leaves the chain's slot at the greater of the two indices and every other slot as it was |
| `Delivery.RegistrationOpensSlot` | contracts/src/Hub.sol:111-126 | registration is accepted exactly for a new chain with an id while the hub has room, and opens one empty slot at the end |
| `Delivery.RelaySends` | contracts/src/Verifier.sol:311-335 | a relay sends the newest proved root, refused exactly when paused or zero |
| `Delivery.ProofAdvances` | contracts/src/Verifier.sol:176-217 | reserving and then proving honestly from any proved index makes the newest transfer the latest proved one, with the root of all transfers |
| `Delivery.ProofIff` | contracts/src/Verifier.sol:189-217 | exactly which root proofs are accepted; a conflicting root pauses and stores nothing, any other is stored for its index alone |
| `Delivery.PauseSwitches` | contracts/src/Verifier.sol:375-383 | pausing and unpausing are accepted exactly when they change something, and change nothing else |
| `Delivery.PausedRefuses` | contracts/src/Verifier.sol:189-319 | a paused verifier accepts no proof, pays nothing and relays nothing |
| `Delivery.TransferMoves` | contracts/lib/openzeppelin-contracts-upgradeable/contracts/token/ERC20/ERC20Upgradeable.sol:227-246 | a transfer is accepted exactly between accounts with enough balance; every balance changes by what came in and went out, and the transfer is logged |
| `Delivery.DepositCreates` | contracts/lib/openzeppelin-contracts-upgradeable/contracts/token/ERC20/ERC20Upgradeable.sol:256-270 | a deposit is accepted exactly within the 256-bit supply and creates what it pays out |
| `Delivery.WithdrawalDestroys` | contracts/lib/openzeppelin-contracts-upgradeable/contracts/token/ERC20/ERC20Upgradeable.sol:282-306 | a withdrawal is accepted exactly with enough balance, destroys what it takes and is logged with the zero address |
| `AggregationRoot.ComputeAggregationRoot` | contracts/src/utils/PoseidonAggregationLib.sol:21-50 | the in-place level hashing with zero defaults returns the plain Merkle root of the original leaves |
| `AggregationRoot.GenerateZeroHashes` | contracts/src/utils/PoseidonAggregationLib.sol:55-60 | entry k is the hash of an empty subtree of height k |
| `Field.StrictLessThanIff` | zkp/src/utils/tree/gadgets/merkle.rs:33-54 | the comparison gadget holds exactly when left < right < 2^n over the integers |
| `Field.BitLengthIff` | zkp/src/utils/tree/gadgets/merkle.rs:12-29 | the range gadget holds exactly for values below 2^n |
| `RootCircuit.CircuitRootIsFold` | zkp/src/utils/tree/gadgets/merkle.rs:56-76 | the multiplication-selected in-circuit root equals hashing the leaf up its path |
| `RootCircuit.RootStepIff` | zkp/src/circuits/root_transition.rs:20-57 | exactly which steps are accepted, over the integers, with their range checks, and the state they lead to |
| `RootCircuit.RootRunInRange` | zkp/src/circuits/root_transition.rs:34-57 | every transfer of an accepted run has a 160-bit address and a 248-bit value |
| `RootCircuit.RootStepAppends` | zkp/src/circuits/root_transition.rs:34-57 | a real step accepted from the root of some leaves appends to exactly these leaves, or there is a collision on its path |
| `RootCircuit.RootRunSound` | zkp/src/nova/root_nova.rs:96-128 | every accepted run ends in index, chain and root of the old leaves followed by exactly its non-dummy transfers, within the tree, or a collision is computed |
| `RootCircuit.HonestRootStep` | indexer/src/jobs/root.rs:281-310 | with the true siblings the step of every in-range event below 2^depth is accepted and leads to the tree's next state |
| `RootCircuit.DummyRootStep` | indexer/src/jobs/root.rs:422-437 | the padding step changes nothing and is accepted exactly while the tree has a free slot |
| `Merkle.PathBinding` | zkp/src/utils/tree/merkle_tree.rs:64-110 | a path to a node's hash has that leaf and those siblings, or it contains a collision |
| `Merkle.FoldSiblings` | zkp/src/utils/tree/merkle_tree.rs:64-110 | the true siblings of any node lead to its ancestor |
| `WithdrawCircuit.WithdrawStepIff` | zkp/src/circuits/withdraw.rs:70-107 | exactly which steps are accepted, over the integers, and the state they lead to, without wrap-around |
| `WithdrawCircuit.WithdrawRunIff` | zkp/src/nova/withdraw_nova.rs:116-166 | exactly which runs are accepted and where they end |
| `WithdrawCircuit.NoInflation` | zkp/src/circuits/withdraw.rs:70-107 | an accepted run from zero opens distinct burned leaves of the recipient, its total is the integer sum with every partial total below 2^248 and at most the value opened, in at most 2^depth steps, or a genuine break |
| `WithdrawCircuit.SingleIff` | zkp/src/circuits/withdraw.rs:34-50 | exactly what the single circuit accepts |
| `WithdrawCircuit.SingleIsTwoStepBatch` | zkp/src/circuits/withdraw.rs:34-107 | single withdrawal with delta is accepted exactly when the two-step batch with a later dummy is, with equal totals |
| `WithdrawCircuit.TwoStepExistsIff` | zkp/src/circuits/withdraw.rs:34-107 | some two-step batch stands for a single withdrawal exactly when that is accepted and its leaf is not the last of the tree |
| `WithdrawCircuit.LastLeafHasNoTwoStepBatch` | zkp/src/circuits/withdraw.rs:70-107 | for the last leaf no two-step batch is accepted |
| `Burn.NativeMatchesCircuit` | zkp/src/circuits/burn_address.rs:74-97 | native and in-circuit burn address agree in value and in acceptance |
| `Burn.FindPowNonce` | zkp/src/circuits/burn_address.rs:51-59 | returns the least working nonce, and none only when no 64-bit nonce works |
| `Payment.DerivedSecretAccepted` | client-common/src/payment/invoice.rs:145-157 | a secret with proof of work for the hash of chain id, address and tweak survives its storage as 32 bytes, is accepted for the same recipient, and its 20-byte address is the value the constrained circuit computes |
| `Payment.PowAdjustedSecret` | client-common/src/payment/invoice.rs:145-157 | the stored secret comes from the least working nonce and is accepted for the recipient it was derived for; none is returned only when no 64-bit nonce works |
| `Payment.SerializedReadsBack` | client-common/src/payment/burn_address.rs:51-92 | what was written reads back as it was |
| `Payment.DecodesIff` | client-common/src/payment/burn_address.rs:61-92 | a byte string decodes exactly with the right length and version, and is then what would be written; otherwise the error says which was wrong |
| `Payment.LayoutIff` | client-common/src/payment/burn_address.rs:51-92 | writing and reading both mean one layout: byte 0 is 1, then the chain id in eight big-endian bytes, the address word, the tweak and the secret |
| `Payment.DecodedIsBuildableIff` | client-common/src/payment/burn_address.rs:23-92 | what was decoded could have been built exactly with an EVM address and proof of work |
| `Bytes.FrThroughWord` | zkp/src/utils/convertion.rs:23-35 | a field element survives its 32 bytes |
| `Bytes.WordThroughFrIff` | zkp/src/utils/convertion.rs:27-35 | a word survives the field exactly below the field order |
| `Bytes.AddressThroughFr` | zkp/src/utils/convertion.rs:7-16 | an address survives the field |
| `Bytes.FrThroughAddress` | zkp/src/utils/convertion.rs:7-16 | an address keeps exactly the low 160 bits of a field element |
| `Burn.SameAddressSameWindow` | zkp/src/circuits/burn_address.rs:30-49 | equal burn addresses with proof of work come from hashes that agree on 172 bits |
| `DbTree.Tree.AppendLeaf` | indexer/src/trees/db.rs:233-410 | the transaction keeps all tables equal to the plain tree of the transfers, returns index, root and chain of the longer list, prunes to the window, and fails exactly on index overflow |
| `DbTree.Tree.PlanUpdates` | indexer/src/trees/db.rs:278-340 | the climb plans exactly one row per changed node with its old hash and arrives at the recomputed root |
| `DbTree.Tree.FetchPositions` | indexer/src/trees/db.rs:259-274 | the prefetch covers every node and sibling the climb reads |
| `DbTree.Tree.ProveMany` | indexer/src/trees/db.rs:421-532 | the exact error for every bad request; otherwise stored root and chain of the target and siblings of the tree at the target or, if later, the floor; with one window every proof leads to the Merkle root of the first transfers, and in general a proof leads to its root exactly when its leaf's block is the stored one, or there is a collision |
| `DbTree.Tree.AllowedProofLeads` | indexer/src/trees/db.rs:421-532 | after any appends with one window every proof the retention check admits leads from its leaf to the Merkle root of the first target transfers |
| `DbTree.Tree.AllowedIsRebuildable` | indexer/src/trees/db.rs:448-455 | with one window the retention check admits exactly the targets from the tree's own pruning floor on |
| `DbTree.Tree.RaisedWindow` | indexer/src/trees/db.rs:448-455 | targets only a raised window admits lie below the floor, and in a tree that has not overflowed their proofs do not lead to their root, or there is a genuine break |
| `DbTree.Tree.LoadOverlay` | indexer/src/trees/db.rs:698-750 | holds exactly the oldest recorded hash of each node changed in the range |
| `DbTree.Tree.StoredHash` | indexer/src/trees/db.rs:752-763 | a stored hash or the zero hash of the path's level |
| `DbTree.Tree.SnapshotAt` | indexer/src/trees/db.rs:545-566 | the snapshot of an index is root and chain of that many transfers, and missing exactly outside the tree |
| `DbTree.OpenTree` | indexer/src/trees/db.rs:203-224 | refuses height zero and otherwise attaches to the tables as earlier sessions left them, with the correct zero hashes |
| `DbTree.NewTree` | indexer/src/trees/db.rs:203-224 | the first session finds empty tables and starts as the empty tree |
| `TreeTables.AppendRepresents` | indexer/src/trees/db.rs:259-381 | the incremental update refines the full recomputation at every path |
| `TreeTables.AppendKeepsHistory` | indexer/src/trees/db.rs:320-381 | the undo rows keep every earlier index rebuildable |
| `TreeTables.PruneKeepsHistory` | indexer/src/trees/db.rs:383-398 | pruning keeps every index from the floor on rebuildable |
| `TreeTables.PruneKeepsFirst` | indexer/src/trees/db.rs:383-398 | no rebuild at or above the floor reads a deleted row |
| `TreeTables.KeptRowIsFound` | indexer/src/trees/db.rs:698-750 | whoever asks for a kept row's path just below its index, which is an index the log still reaches back to, finds that row |
| `DbTree.Tree.KeptRowReadIff` | indexer/src/trees/db.rs:383-532 | with one window a kept row is read by some proof the retention check admits exactly when it belongs to a right child |
| `DbTree.Tree.ReadIsOldHash` | indexer/src/trees/db.rs:483-520 | what a rebuild takes from a row it reads is the row's old hash |
| `TreeTables.LeftLeafIsNeverRead` | indexer/src/trees/db.rs:320-381 | every append at an even position writes a row for its own leaf that no later proof reads |
| `TreeTables.RebuiltProofGood` | indexer/src/trees/db.rs:421-532 | for trees of any size a rebuilt proof leads to the target's root exactly when the leaf's block as read holds the same leaves as the root's block, or there is a collision |
| `TreeTables.RebuildableIff` | indexer/src/trees/db.rs:383-398 | for a leaf in the target's last block that is so exactly when the target is not below the floor or ends its block, or the next leaf is zero |
| `TreeTables.BlockRootIff` | indexer/src/trees/db.rs:233-323 | the stored root of an overflowed tree is the Merkle root exactly when the last block repeats the first, or there is a collision |
| `TreeTables.OverflowedTrees` | indexer/src/trees/db.rs:233-323 | two overflowing inputs, one where the stored root is another block's and one where it happens to be the Merkle root |
| `TreeTables.RepeatedBlockIsGood` | indexer/src/trees/db.rs:421-532 | an overflowing input with a good proof of a leaf outside the target's block and no collision |
| `Blocks.NodesEqualIff` | zkp/src/utils/tree/merkle_tree.rs:64-110 | two subtrees have one hash exactly when they have the same leaves, or there is a collision |
| `EventSync.ScanEndsIff` | indexer/src/events/mod.rs:164-193 | the chunk loop ends exactly when the overlap is below the span or one chunk covers the range |
| `EventSync.Indexer.ScanChunked` | indexer/src/events/mod.rs:164-193 | inserts exactly the events of the blocks in the range, and says exactly when the loop would not end |
| `EventSync.ScanStaysInRangeIff` | indexer/src/events/mod.rs:164-193 | no chunk starts below the range exactly when the overlap is at most the span, one chunk covers the range, or the range starts at block zero |
| `EventSync.Indexer.AdvanceContiguous` | indexer/src/events/mod.rs:446-529 | moves to the end of the gap-free prefix |
| `EventSync.Indexer.FindGapAnchor` | indexer/src/events/mod.rs:531-588 | a block range up to the nearest stored event that holds the first missing event if that lies at or below the latest block, or why there is none |
| `EventSync.Indexer.BackfillMissing` | indexer/src/events/mod.rs:195-237 | ends unless one of its scans does not, because every round closes the first gap, and ends with all events up to the latest block contiguous |
| `EventSync.Indexer.Sync` | indexer/src/events/mod.rs:116-162 | one sync from any table of true events ends with every event up to the latest block in the contiguous prefix, unless one of its scans never ends, which an overlap below the span rules out |
| `TreeJob.IngestEvents` | indexer/src/jobs/tree.rs:203-297 | with sync running beside it every append is the next event of the chain, it ends, and within the contiguous prefix it reaches its target unless indices run out |
| `TreeJob.FetchRows` | indexer/src/jobs/tree.rs:218-242 | the first rows of an index range up to the limit |
| `TreeJob.StoredRows` | indexer/src/jobs/tree.rs:218-242 | these are true rows in ascending order, and all of the range unless the limit cuts them off |
| `TreeJob.IngestToken` | indexer/src/jobs/tree.rs:70-141 | the tree stays the transfers of events 0 to its index and never passes the contiguous prefix |
| `RootProver.Job.EnsureAlignment` | indexer/src/jobs/root.rs:696-720 | the tables after however many of its writes were made, and whether it left the state cut; complete, it works from the given base |
| `RootProver.Job.LoadStateVector` | indexer/src/jobs/root.rs:1116-1129 | the state of the tree at an index; the empty tree's state only for index 0 or past the tree |
| `RootProver.Job.InitialiseNova` | indexer/src/jobs/root.rs:1075-1114 | a proof from the base that folds exactly the compiled events, missing exactly when the state was cut |
| `RootProver.Job.CompileEvent` | indexer/src/jobs/root.rs:281-310 | the step is accepted unless the tree is full, and the tree refuses exactly when it ran more than the window ahead |
| `RootProver.Job.CompileRows` | indexer/src/jobs/root.rs:279-376 | stores one good proof after the other and nothing else, each the fold of exactly the events from the base |
| `RootProver.Job.SyncIvcProofs` | indexer/src/jobs/root.rs:228-390 | compiles up to the lesser of tree and token index; the proof to continue from is missing exactly when the state was cut and there is something to compile |
| `RootProver.Job.FinishSubmission` | indexer/src/jobs/root.rs:503-518 | the tables after however many of the writes of a submission were made |
| `RootProver.Job.SubmitReserved` | indexer/src/jobs/root.rs:467-521 | waits exactly when the reservation is for another index; reverts only when paused at sending or for a zero root or chain; a receipt means the tables went through the writes of a submission |
| `RootProver.Job.SubmitIfReady` | indexer/src/jobs/root.rs:392-521 | submits the compiled index or says why not; its proof is missing exactly when the state was cut; the padding step is refused only on a full tree; a due submission that just ends holds a new reservation for a later transfer, and one that reverts met a pause or a zero value |
| `RootProver.Job.ProcessToken` | indexer/src/jobs/root.rs:141-226 | whatever the node answers, a cycle misses a proof exactly when the state was cut by a stopped alignment, the answer is its old base, proofs had been compiled and a branch needs one; with a root window within the tree window it meets the retention limit only if the tree ran ahead of the token index it read; a receipt is for the compiled index, which is then proved, and a due submission without one is explained by a stop with too few writes, a later transfer, a pause or a zero value |
| `RootProver.Job.Run` | indexer/src/jobs/root.rs:74-118 | over any cycles, answers and stops that condition is exact for every cycle; with answers that never fall no cycle misses a proof and receipts strictly increase |
| `RootProver.QuietCycleSubmits` | indexer/src/jobs/root.rs:141-521 | a full cycle with enough writes on a chain without new transfers or pauses meanwhile submits the newest transfer's index, whatever reservation and compiled rows the tables hold |
| `ProverChain.Verifier.Submit` | contracts/src/Verifier.sol:189-217 | an honest run is accepted exactly when not paused and neither the old root nor the chain is zero |
| `ProverChain.Verifier.Others` | contracts/src/Verifier.sol:176-217 | any calls by anybody else, short of breaking a hash function, lose nothing the prover relies on |
| `ProverChain.ProveFollows` | contracts/src/Verifier.sol:189-217 | whoever proves, the chain stays as the prover relies on, or there is a genuine break |
| `ProverTables.CompileStep` | zkp/src/circuits/root_transition.rs:38-55 | one more event extends a good proof exactly while the tree has room |
| `ProverTables.RecoveryAgrees` | indexer/src/jobs/root.rs:503-518 | wherever the writes of `FinishSubmission` stop, the writes of `EnsureAlignment` then reach the state of the undisturbed path, and proofs stored as by `CompileRows` read back the same |
| `ProverTables.StartColumnIff` | indexer/src/jobs/root.rs:874-923 | exactly when the start column of a recovered row is right |
| `RootProver.FallingAnswerMisses` | indexer/src/jobs/root.rs:696-720 | from every state with compiled proofs a stopped alignment to another proved index and then the old answer again end with the proof missing |
| `Lease.LeaseExclusion` | indexer/src/jobs/lock.rs:59-156 | with one guard per process and key a guard stamped at most one TTL ago owns its row and no other fresh guard for the key exists |
| `Lease.LeaseRunIff` | indexer/src/jobs/lock.rs:59-182 | over whole runs fresh guards own their rows throughout exactly when no release removes a row a second fresh guard of the process relies on |
| `Lease.LeaseEnds` | indexer/src/jobs/lock.rs:59-147 | in every run, when more than one TTL passes without an acquire or renewal of a key, whoever asks next gets a guard and a row that ends one TTL later |
| `Lease.DeadHolderIsReplaced` | indexer/src/jobs/lock.rs:59-90 | after any run and one TTL of silence the next process to ask gets the lease |
| `Lease.SuccessorKept` | indexer/src/jobs/lock.rs:124-156 | renewing, releasing or abandoning a lost guard never changes the successor's row |
| `Lease.LateDeleteBreaksExclusion` | indexer/src/jobs/lock.rs:158-182 | a late delete of a dropped guard lets two processes in |
| `Lease.Leases.TryAcquire` | indexer/src/jobs/lock.rs:59-90 | a guard handed out owns its row and no other process has a fresh guard for the key; its row ends one TTL from now; none is handed out exactly against another holder's unexpired row |
| `Lease.Leases.Renew` | indexer/src/jobs/lock.rs:124-147 | a fresh guard never fails to renew, and a renewed one owns its row for exactly another TTL; a failure changes nothing |
| `Lease.Leases.Release` | indexer/src/jobs/lock.rs:39-56 | a fresh guard always finds its row, a lost one deletes nothing, and ownership survives exactly when no second fresh guard of the process relied on the row |
| `Queue.QueueSafety` | decider-prover/src/queue.rs:101-154 | each id is queued and taken at most once, status only moves forward between any two moments, and a terminal record is final |
| `Queue.RecordsTellTheOutcome` | decider-prover/src/worker.rs:67-91 | over every run a record is Completed only with the bytes of the proof its prover returned, Failed only with its error, and empty before |
| `Queue.NothingIsLost` | decider-prover/src/queue.rs:101-154 | in every run a recorded job that no worker has taken waits in the queue |
| `Queue.QueueIsFifo` | decider-prover/src/queue.rs:101-154 | the queue loses only its head, to the worker that pops, and grows only at its end |
| `Queue.RecordMoves` | decider-prover/src/queue.rs:113-133 | the read-then-write update acts on the record as it stands, so no update is lost |
| `Queue.DroppedJobStays` | decider-prover/src/worker.rs:65-66 | a job that does not decode or whose worker dies keeps its status in every continuation |
| `Queue.Service.Enqueue` | decider-prover/src/queue.rs:139-154 | a known job is left alone and reported as it stands, a new one is recorded and queued |
| `Queue.Service.ProcessOnce` | decider-prover/src/worker.rs:39-95 | with everyone else at work in between, the job taken ends Completed with the proof's bytes or Failed with the prover's error, or stays Processing if it does not decode |
| `BatchBuilder.PathComposition` | client-common/src/teleport/merkle_proofs.rs:105-115 | folding along the extended path at the global index is folding locally and then along the aggregation path |
| `BatchBuilder.GlobalOrder` | client-common/src/teleport/merkle_proofs.rs:107-132 | global indices are distinct and ordered by slot, then event index |
| `BatchBuilder.IndexPastTreeClashes` | client-common/src/teleport/merkle_proofs.rs:107-108 | an event index past the local tree takes the global index of another chain's leaf |
| `BatchBuilder.GlobalProofs` | client-common/src/teleport/merkle_proofs.rs:92-135 | succeeds exactly when every chain is known and every extended path leads to the root, and returns exactly the extended proofs in index order; a failure names an unknown chain or the index of a path that does not lead to the root |
| `BatchBuilder.SortProofs` | client-common/src/teleport/merkle_proofs.rs:131-132 | a stable sort by global index |
| `BatchBuilder.TrueProofAccepted` | client-common/src/teleport/merkle_proofs.rs:110-122 | a true local proof under a slot is never refused |
| `BatchBuilder.BuildInputs` | cli/src/proof/batch.rs:38-80 | refuses exactly mismatched lengths and wrong path lengths, otherwise the real steps followed by zero dummies up to the last but one leaf |
| `BatchBuilder.BatchIff` | cli/src/proof/batch.rs:53-96 | the built batch is accepted exactly when the real indices increase below the first dummy, every leaf opens and the sum is below 2^248; it ends with that sum and, after a dummy, with slot 2^depth - 1; without dummies indices may go up to the last leaf |
| `Redemption.TeleportIff` | contracts/src/Verifier.sol:229-305 | exactly which batches are paid, whatever start state, root, recipient and steps the proof claims |
| `Redemption.SingleTeleportIff` | contracts/src/Verifier.sol:257-305 | exactly which single proofs are paid |
| `Redemption.BurnedIsWithdrawable` | cli/src/proof/batch.rs:53-96 | the holder of the secrets of burned leaves of a local or global view gets the batch of their true paths accepted with their exact sum, with dummies below the first dummy and without them anywhere in the tree |
| `Redemption.PathLeadsToRoot` | client-common/src/teleport/merkle_proofs.rs:105-122 | the true path of a leaf leads from its transfer to the root of the view, through the aggregation tree for a global one |
| `Redemption.BurnedIsMinted` | contracts/src/Verifier.sol:229-305 | against any proved root or received global root the batch of burned leaves of any registered chains, with or without dummies, is paid exactly when the recipient's address is not zero, the chain is not paused, the sum exceeds what the account received and supply and log have room, and pays exactly the difference |
| `Redemption.BurnedIsMintedAlone` | contracts/src/Verifier.sol:257-305 | the same for a single proof of any burned leaf, the last leaves of the tree included |
| `Redemption.ZeroAccountIsNeverPaid` | contracts/src/Verifier.sol:279-305 | no teleport to a zero address goes through |

## Left out

- Nova folding, Groth16, KZG and the decider: a proof is the run it folds.
- Poseidon, SHA-256 and Keccak themselves: they are parameters.
- RPC, HTTP, Postgres and Redis plumbing, partitions, retries, timeouts and logging.
- Chain reorganisations that rewrite an ingested event, and expiry of Redis records.
- Runs in which one token logs 2^64 or more transfers: the token counts in 256 bits, the verifier cuts the index to 64.
- The list of chains a broadcast is sent to: any chain may receive any aggregation root, at any time and repeatedly.
- Hub token updates, verifier rotation, upgrades, ownership, fees and gas; a chain's endpoint id stands for its chain id.
- Fetching local proofs from the indexer: the client repeats checks that `DbTree.Tree.ProveMany` already promises.
- Frontend, wasm bindings, CLI and configuration parsing, encryption, canister clients, crosschain job.
- Fee buffer, invoice id flags, result-file merging, the backward event search, error-message truncation: easy members.
- DbTree.Tree.ProveMany: taken as one atomic step; the source runs several statements and locks only the latest snapshot row.
- ERC-20 allowances, and the Minter's own liquidity: deposits and withdrawals are the token's `mint` and `burn`.
- RootProver.Job.SyncIvcProofs: assumes to be the only writer of its rows. `Lease.LeaseExclusion` gives this while the guard is fresh; a job whose renewal failed once stops renewing but goes on writing, and what the tables keep beside a second writer is not modelled.
- EventSync.Indexer.ScanChunked: of a scan that never ends only the first chunk is made; which later chunks start below the range is `EventSync.ScanStaysInRangeIff`.
- EventSync.Indexer.Sync: the node's token index must cover the events up to its latest block, as a node answering both from one state does.
- BatchBuilder.GlobalProofs: indices are unbounded integers; with the deployed heights they stay below 2^46, far from 64-bit overflow.
- BatchBuilder.BuildInputs: the random number of dummies, one to nine, is a parameter.
