# Chaincraft: a verified model

This project models the consensus engines, ledgers, fee market, mempool and
cryptographic primitives of Chaincraft in Dafny 4.11 and proves what they promise.
`dafny verify dfyconfig.toml` checks all of it.

The modules whose names end in `Rules`, `Steps`, `Outcomes` or `Binding` say in plain
numbers, sets and indices what the specification functions of the others decide: who is
scheduled, which tip wins, how far the base fee moves, which bid is taken, who is paid.

Where the program updates an object in place, the model is a class with the same fields,
and every method is proved to move the object from one abstract state to the next as a
specification function says. What the program promises is then proved about those
functions: for every reachable state, every run, and every order of arrival.

## What is modelled

**Tendermint** (`Tendermint`, `TendermintSteps`, `TendermintSystem`,
`TendermintEquivocation`). One validator is the class `Node`. The system is all correct
nodes plus a growing set of sent messages. A step delivers any message ever sent to any
correct node, lets a correct proposer propose, or adds any message that names a faulty
author or none; so loss, duplication, reordering and equivocation are all included. With
fewer than a third of the validators faulty, correct nodes agree on the committed hash
of every height. The module comment of the engine promises agreement on values. That is
false when the proposer is faulty: `ValuesMayDiffer` is a run in which two correct nodes
certify one hash and commit two values, because the commit falls back to the last
proposal seen. `CommittedValueExact` says exactly when the value is the certified one,
and `ValueAgreement` exactly when two nodes commit the same value: both saw the winning
one, or neither did and the proposals they last accepted are equal.

**Fork choice** (`ForkChoice`, `ForkChoiceRuns`, `LongestChain`, `Pow`, `ProofOfWork`,
`VdfChain`). The incremental block graph with its cached canonical chain equals what
recomputing from the set of blocks gives, for blocks of any work. Two parent-first
orders of the same blocks build the same state. A step keeps the finalized prefix
exactly when it reverts no more than `confirmations` blocks. That the heaviest tip is
the heaviest block, and that its work never falls, holds for blocks that add work, which
is what the engines pass; `BestTipIsBest` and `TipMovesToNewBlock` say exactly when it
holds otherwise.

**Merkle DAG** (`MerkleDag`, `MerkleDagArrival`, `MerkleDagObject`, `MerkleDagRules`).
The object takes messages in any order, also one whose parent is unknown, since its
check reads `parents` and not `previous_digest`. A frontier digest never recurs. Whether
it identifies the set of nodes depends on what is missing, that is named and not
arrived, and on what is exposed, that is a head although named: `FrontierIdentifies`
says exactly when equal frontiers mean equal nodes and equal nodes mean equal frontiers,
and `SyncCondition` exactly when one exchange leaves A with B's nodes. Where parents
arrive before their children nothing is missing or exposed, so a frontier identifies the
nodes and an exchange works exactly from a frontier that the other has passed through
(`FrontierOfNodes`, `SyncInOrder`). `OrphanLooksSynchronised` and `LateParent` are
inputs on which that fails: in the first two nodes show one frontier, hold different
nodes and never exchange them. The hash is a parameter without collisions whose output
is neither empty nor the word `genesis`; a frontier digest and a message digest hash
different kinds of payload.

**VDF and BIP-340** (`NumberTheory`, `Bytes`, `Vdf`, `VdfRules`, `Groups`, `Schnorr`,
`SchnorrCurve`, `SchnorrBinding`). Euclid's lemma, Fermat's theorem, Euler's criterion
and the square root for primes with p mod 4 = 3 are proved here, and with them that
every created VDF proof is accepted and that no other is, except its negative. The
code's addition of points is proved to be the chord and the tangent, to stay on the
curve and to be commutative; `LawsIff` says exactly when the points are a group. Of
secp256k1 the constants are proved to fit (`Secp256k1`: p mod 4 = 3, the ranges, the
base point on the curve); that p and n are prime, that addition is associative, that no
point has y = 0 and that n takes the base point to infinity is taken on trust, and the
exact order of the base point follows. The lifting of x-coordinates, double-and-add, the
choice of even points and the whole of signing and verification are proved on top of
that. A signature is bound to its message: `SignatureBindsMessage` says exactly when it
verifies for another one.

**Tangle** (`Tangle`, `TangleEngine`, `TangleRules`) and **Avalanche** (`Avalanche`,
`AvalancheEngine`, `AvalancheRules`, `AvalancheRivals`). Depth-first searches are proved
against reachability, confirmation flags against a pure predicate, the acceptance loop
against a least fixpoint. The module comment of Avalanche says that at most one of
several conflicting transactions is accepted. The engine does not ensure it:
`BothRivalsAccepted` is a run of eight events that accepts both, and accepts the first
on the successes of the second. `RivalNeedsMore` gives the price a later rival pays.
`AcceptedExactly` and `EarnedIff` say in any state what a closure and a query accept,
`EarnedByAncestors` the same when parents were added first, and `QueryKeepsOne` and
`RunKeepsOne` exactly when a query and a whole run, with parents in any order, keep the
promise.

**Fees, mempool, account ledger and chain** (`Fees`, `FeeRules`, `Mempool`,
`MempoolRuns`, `MempoolOutcomes`, `TransactionPools`, `BalanceLedger`, `BalanceBlocks`,
`Blockchain`, `BlockchainRules`, `BlockchainEngine`). Over all runs of submissions,
reinjections and blocks, some of which fail: value is conserved, nonces are used in
order and once, nobody is in debt under a policy that charges the bid, and the base fee
stays above its floor. A block's effect on the books does not depend on the order of its
transactions. The median policy can charge more than the bid; `MedianOverdraws` is an
input that ends in debt, and `TxSolventIff` and `BlockSolventIff` are the exact
conditions for a transaction and a block.

**Output ledger** (`UtxoLedger`, `UtxoRules`, `UtxoRuns`, `UtxoBurning`, `UtxoEngine`).
While each block burns less than its reward, or nothing, no output id is created twice,
no spent id returns and no transaction is applied twice. With more burning they can,
because a coinbase id hashes the supply: `BurningReusesAnId` and `SpentIdReturns` are
such runs, and `RunKeepsIff` says exactly when a run keeps the promise, whatever it
burns.

**Cached block ledger** (`CachedLedger`, `CachedLedgerRules`, `CachedLedgerRuns`,
`CachedLedgerEngine`) and **block lattice** (`Lattice`, `LatticeVotes`, `LatticeRules`,
`LatticeEngine`). The cached balances of every fork equal a replay of its path, and the
same blocks in any order with parents first give the same state; the lattice conserves
value between balances and unclaimed sends. Two confirmed blocks share a voter in every
run exactly when no two disjoint groups of representatives both reach the quorum, which
holds for weights that are never negative and fails for others (`NegativeWeightSplits`).

Hashes are injective parameters, or the hashed content stands for its hash. Signatures,
clocks and random choices are parameters. Iteration over a Python set or dictionary
whose order the program does not fix is a loop in arbitrary order; insertion order is
kept as a list where the program depends on it. `Common` and `Order` hold sums over
maps, sets listed as sequences, and the order of strings.

## Model

| member | source | states |
|---|---|---|
| Tendermint.Node.QuorumWinner | chaincraft/consensus/bft/tendermint.py:202-211 | the hash returned is one that a quorum of the ballot supports, and none is returned exactly when no hash has one |
| Tendermint.QuorumHashUnique | chaincraft/consensus/bft/tendermint.py:202-211 | in a ballot of validators no two hashes reach the quorum, so the answer does not depend on dictionary order |
| Tendermint.Node.CommitBlock | chaincraft/consensus/bft/tendermint.py:233-242 | the height's value is recorded, with the last proposal as fallback, and the node moves to the next height |
| Tendermint.Node.ExaminePrecommits | chaincraft/consensus/bft/tendermint.py:195-200 | a precommit quorum commits its hash, anything less changes nothing |
| Tendermint.Node.ExaminePrevotes | chaincraft/consensus/bft/tendermint.py:187-193 | a prevote quorum in the prevote step makes the node precommit that hash |
| Tendermint.Node.Observe | chaincraft/consensus/bft/tendermint.py:135-185 | the new state and the messages sent for any proposal, prevote or precommit, current or stale; TendermintSteps says the same in counts and indices |
| Tendermint.Node.ProposeValue | chaincraft/consensus/bft/tendermint.py:117-133 | only the validator at index (height + round) modulo their number proposes, in the propose step, and it handles its own proposal |
| TendermintSteps.FirstScheduled | chaincraft/consensus/bft/tendermint.py:105-108 | the first validator is scheduled at height 0, round 0 |
| TendermintSteps.NextScheduled | chaincraft/consensus/bft/tendermint.py:105-108 | at the next height, and at the next round, it is the next validator's turn, and after the last the first one's |
| TendermintSteps.EachOnce | chaincraft/consensus/bft/tendermint.py:105-108 | among as many heights in a row as there are validators each is scheduled exactly once |
| TendermintSteps.QuorumIsLeast | chaincraft/consensus/bft/tendermint.py:98-103 | a quorum is the least number above two thirds of the validators |
| TendermintSteps.ProposalHandled | chaincraft/consensus/bft/tendermint.py:155-193 | only a proposal of the scheduled validator for the current height is heard; the node that has not voted prevotes its hash, and precommits if that completes two thirds |
| TendermintSteps.PrevoteHandled | chaincraft/consensus/bft/tendermint.py:155-200 | a validator's prevote replaces its earlier one; the node precommits exactly when it has prevoted and more than two thirds prevoted one hash |
| TendermintSteps.PrecommitHandled | chaincraft/consensus/bft/tendermint.py:155-242 | the node enters the next height exactly when it has voted and more than two thirds precommitted one hash |
| TendermintSystem.QuorumsMeet | chaincraft/consensus/bft/tendermint.py:95-103 | any two quorums share a correct validator when fewer than a third are faulty |
| TendermintSystem.ReachableInv | chaincraft/consensus/bft/tendermint.py:135-241 | the system invariant holds in every state reachable under any delivery order, loss, duplication and equivocation |
| TendermintSystem.OnePrecommitHash | chaincraft/consensus/bft/tendermint.py:187-231 | all precommits of correct validators at a height carry one hash |
| TendermintSystem.Agreement | chaincraft/consensus/bft/tendermint.py:155-241 | no two correct nodes commit different hashes at a height |
| TendermintSystem.CommittedHeights | chaincraft/consensus/bft/tendermint.py:233-242 | a node's committed heights are exactly 1 up to its height minus 1 |
| TendermintSystem.Certificates | chaincraft/consensus/bft/tendermint.py:105-132 | correct precommits carry the hash of a value in a proposal naming the scheduled proposer |
| TendermintSystem.CorrectProposer | chaincraft/consensus/bft/tendermint.py:105-132 | when the scheduled proposer is correct, every committed value is its single proposal |
| TendermintSystem.CommittedWasProposed | chaincraft/consensus/bft/tendermint.py:233-242 | every committed value hashes to something proposed for its height |
| TendermintSystem.CommittedValueExact | chaincraft/consensus/bft/tendermint.py:233-242 | the committed value has the certified hash exactly when that value was seen before the commit |
| TendermintSystem.ValueAgreement | chaincraft/consensus/bft/tendermint.py:233-242 | two correct nodes commit the same value exactly when both saw the winning value, or neither did and the proposals they last accepted are equal |
| TendermintSystem.CommitIsFinal | chaincraft/consensus/bft/tendermint.py:135-241 | no later step changes a committed value |
| TendermintEquivocation.ValuesMayDiffer | chaincraft/consensus/bft/tendermint.py:233-242 | a run of four validators, one faulty, in which two correct nodes certify one hash and commit different values |
| ForkChoice.ForkAwareChain.constructor | chaincraft/consensus/pow/chain.py:49-64 | a chain holding only genesis |
| ForkChoice.ForkAwareChain.ChainTo | chaincraft/consensus/pow/chain.py:99-106 | the loop returns the path from genesis |
| ForkChoice.ForkAwareChain.BestTip | chaincraft/consensus/pow/chain.py:152-157 | the best of the tips, whatever the order of the set; SelectedExactly says which that is |
| ForkChoice.ForkAwareChain.AddBlock | chaincraft/consensus/pow/chain.py:108-150 | error and duplicate cases change nothing; otherwise links, tips, canonical chain and reported difference are those of the enlarged set of blocks |
| ForkChoice.BestTipIsBest | chaincraft/consensus/pow/chain.py:152-165 | the best tip, in the sense of SelectedExactly, is the best of all blocks exactly when no block with children is better, as where every block adds work |
| ForkChoice.SelectedExactly | chaincraft/consensus/pow/chain.py:152-165 | the tip is the childless block such that every other has less cumulative work, or as much and a larger id |
| ForkChoice.TakesTip | chaincraft/consensus/pow/chain.py:131-165 | a block on another branch takes the tip exactly when its branch is heavier, or as heavy and its id is smaller |
| Order.LessExactly | chaincraft/consensus/pow/chain.py:161-165 | ids are ordered by their first difference, a beginning before what it begins |
| ForkChoice.ReportExactly | chaincraft/consensus/pow/chain.py:131-149 | beyond their common beginning the old chain held the reverted blocks and the new one holds the extended, with different first blocks; a reorganisation is one that reverts some |
| LongestChain.WorkAdds | chaincraft/consensus/pow/chain.py:108-130 | cumulative work is the work of the blocks from genesis on |
| ForkChoice.DiffIsSuffix | chaincraft/consensus/pow/chain.py:131-149 | old chain = common + reverted, new chain = common + extended, with a non-empty common part |
| ForkChoice.PathLength | chaincraft/consensus/pow/chain.py:99-106 | a block's index on the canonical chain is its height above genesis |
| ForkChoice.TipMovesToNewBlock | chaincraft/consensus/pow/chain.py:131-150 | an addition of positive work, or on another branch, keeps the tip or moves it to the new block; over any work, the tip's work falls exactly when the block takes work from the tip and no other tip had as much |
| ForkChoiceRuns.Convergence | chaincraft/consensus/pow/chain.py:108-165 | nodes that hold the same blocks agree on links, tips and canonical chain |
| ForkChoiceRuns.OrderIndependent | chaincraft/consensus/pow/chain.py:108-150 | any two parent-first orders of the same blocks build the same graph |
| ForkChoiceRuns.TipWorkGrows | chaincraft/consensus/pow/chain.py:108-165 | over a whole run the tip's work never decreases while no block takes work away |
| ForkChoiceRuns.RunBest | chaincraft/consensus/pow/chain.py:152-165 | the same after any run, and always after blocks that all add work |
| ForkChoiceRuns.FinalityStep | chaincraft/consensus/pow/chain.py:131-149 | an addition extends the finalized prefix if and only if it reverts at most `confirmations` blocks |
| ForkChoiceRuns.FinalizedGrows | chaincraft/consensus/pow/proof_of_work.py:124-136 | while no step reverts more than `confirmations`, the finalized prefix is only extended |
| LongestChain.DecisionIsFinalized | chaincraft/consensus/pow/proof_of_work.py:124-136 | a decision is the last block of the finalized prefix, and there is one exactly when that prefix has left genesis |
| LongestChain.DecisionByHeight | chaincraft/consensus/pow/proof_of_work.py:131-136 | the decision is the canonical block whose height is the tip's less the confirmations, if that is above genesis |
| LongestChain.DecidedStays | chaincraft/consensus/pow/proof_of_work.py:131-136 | a decided block stays canonical at its height while reorganisations stay shallow |
| LongestChain.ReadDecision | chaincraft/consensus/pow/proof_of_work.py:124-136 | the decision read off the cached chain is that of the set of blocks |
| Pow.ProofOfWorkPrimitive.CreateProof | chaincraft/crypto_primitives/pow.py:21-34 | where some nonce meets the difficulty the search ends at the first that does, and its hash is a proof |
| LongestChain.SameHeight | chaincraft/consensus/pow/vdf_chain.py:76-100 | where an id fixes header and proof, two nodes give a block they both hold the same height |
| ProofOfWork.AcceptedEverywhere | chaincraft/consensus/pow/proof_of_work.py:77-90 | a block that one node accepts is accepted by every node that holds its parent |
| ProofOfWork.AcceptedExactly | chaincraft/consensus/pow/proof_of_work.py:77-90 | a block is accepted exactly when it is one above a block that is held, its id hashes its challenge and nonce, and the number that this spells is a multiple of the difficulty |
| LongestChain.EntersExactly | chaincraft/consensus/pow/proof_of_work.py:92-98 | an accepted block enters at the height it claims, with one unit of work |
| ProofOfWork.ProofOfWorkConsensus.Ingest | chaincraft/consensus/pow/proof_of_work.py:92-98 | a block is added with work 1 and the last result reports the change of the chain; a known one changes nothing |
| ProofOfWork.ProofOfWorkConsensus.Observe | chaincraft/consensus/pow/proof_of_work.py:77-113 | exactly the verified blocks are ingested, any other changes neither the chain nor the last result |
| ProofOfWork.ProofOfWorkConsensus.Propose | chaincraft/consensus/pow/proof_of_work.py:69-104 | the mined block sits on the tip one height up, passes verification, and is ingested |
| ProofOfWork.ProofOfWorkConsensus.GetDecision | chaincraft/consensus/pow/proof_of_work.py:131-136 | the decision of the canonical chain |
| VdfChain.MinedIsAccepted | chaincraft/consensus/pow/vdf_chain.py:66-93 | a block mined on any node passes verification on every node with the same iterations that holds its parent |
| VdfChain.AcceptedExactly | chaincraft/consensus/pow/vdf_chain.py:76-93 | a block is accepted exactly when it is one above a block that is held, its id is that of challenge and proof, and the proof's 2^iterations-th power is the challenge or its negative |
| VdfChain.VDFLinearWorkConsensus.Mine | chaincraft/consensus/pow/vdf_chain.py:66-74 | the block carries the VDF output for its own header |
| VdfChain.VDFLinearWorkConsensus.Verify | chaincraft/consensus/pow/vdf_chain.py:76-93 | accepts exactly blocks in place with the right id and an accepted proof |
| VdfChain.VDFLinearWorkConsensus.Observe | chaincraft/consensus/pow/vdf_chain.py:107-114 | exactly the verified blocks are ingested, any other changes neither the chain nor the last result |
| VdfChain.VDFLinearWorkConsensus.Propose | chaincraft/consensus/pow/vdf_chain.py:102-105 | the mined block is ingested on the old tip and the last result reports the change |
| VdfChain.VDFLinearWorkConsensus.GetDecision | chaincraft/consensus/pow/vdf_chain.py:124-134 | the decision of the canonical chain |
| NumberTheory.Euclid | chaincraft/crypto_primitives/vdf.py:24-53 | a prime that divides a product divides a factor |
| NumberTheory.Fermat | chaincraft/crypto_primitives/vdf.py:24-35 | x^(p-1) is 1 modulo a prime that does not divide x |
| NumberTheory.Euler | chaincraft/crypto_primitives/vdf.py:24-35 | the exponent test is always 1 or -1 for a number the prime does not divide |
| NumberTheory.RootOfResidue | chaincraft/crypto_primitives/vdf.py:37-53 | for p mod 4 = 3 the power (p+1)/4 of a residue is its square root |
| NumberTheory.NegatedResidue | chaincraft/crypto_primitives/vdf.py:37-53 | for p mod 4 = 3 the negative of a non-residue is a residue |
| NumberTheory.RootsAgree | chaincraft/crypto_primitives/bip340.py:79-86 | two square roots modulo a prime are equal or opposite |
| Vdf.VDFPrimitive.CreateProof | chaincraft/crypto_primitives/vdf.py:55-78 | the loop computes the chain of square-root operations |
| Vdf.VDFPrimitive.VerifyProof | chaincraft/crypto_primitives/vdf.py:80-109 | the loop computes what acceptance means |
| Vdf.ChainRoundTrip | chaincraft/crypto_primitives/vdf.py:55-109 | squaring the root chain back gives the start up to sign |
| Vdf.AcceptanceExact | chaincraft/crypto_primitives/vdf.py:80-109 | with at least one iteration a proof y is accepted exactly when y^(2^t) is x or -x |
| Vdf.Soundness | chaincraft/crypto_primitives/vdf.py:80-109 | with at least one iteration the only accepted proofs are the created one and its negative modulo p |
| VdfRules.CreatedExactly | chaincraft/crypto_primitives/vdf.py:24-78 | the proof created is the one number below p that is a square and whose 2^t-th power is the input or its negative |
| Vdf.Completeness | chaincraft/crypto_primitives/vdf.py:55-109 | every created proof is accepted, for every input and iteration count |
| Vdf.FieldMod4 | chaincraft/crypto_primitives/vdf.py:13-22 | the field constant is 3 modulo 4 |
| Bytes.BytesRoundTrip | chaincraft/crypto_primitives/bip340.py:67-91 | big-endian bytes of a number read back as that number |
| Groups.DoubleAndAdd | chaincraft/crypto_primitives/bip340.py:58-64 | one step of double-and-add extends the multiple by one bit |
| Groups.ResponseSolves | chaincraft/crypto_primitives/bip340.py:108-138 | s*G + (n-e)*P gives back the nonce point for every challenge |
| Groups.PrimeOrder | chaincraft/crypto_primitives/bip340.py:13-18 | an element that a prime n takes to zero, itself not zero, has order exactly n |
| SchnorrCurve.SumIsThird | chaincraft/crypto_primitives/bip340.py:43-55 | the sum of two points is the third point of their line, or of the tangent, turned over: slope, sum of the x-coordinates and line, all modulo p |
| SchnorrCurve.ThirdOnCurve | chaincraft/crypto_primitives/bip340.py:43-55 | that third point is on the curve again |
| SchnorrCurve.OppositesExactly | chaincraft/crypto_primitives/bip340.py:43-55 | exactly opposite points add up to infinity |
| SchnorrCurve.AddCommutes | chaincraft/crypto_primitives/bip340.py:43-55 | addition is commutative |
| SchnorrCurve.LawsIff | chaincraft/crypto_primitives/bip340.py:43-55 | the points are a commutative group under the code's addition exactly when it is associative and no point is its own opposite |
| SchnorrCurve.LiftXExactly | chaincraft/crypto_primitives/bip340.py:79-86 | lift_x gives exactly the curve point at x whose y is even, and none exactly when there is no point at x |
| SchnorrCurve.Secp256k1 | chaincraft/crypto_primitives/bip340.py:13-18 | the constants of secp256k1 meet everything asked of them that is not the theory of the curve, and with that theory all laws the proofs use |
| Schnorr.PointMul | chaincraft/crypto_primitives/bip340.py:58-64 | the 256-step loop equals k-fold addition for all k below 2^256 |
| Schnorr.LiftXRecovers | chaincraft/crypto_primitives/bip340.py:79-86 | lifting the x-coordinate of a curve point gives its even version |
| Schnorr.EvenMultiple | chaincraft/crypto_primitives/bip340.py:108-138 | negating the scalar gives the even version of its multiple of G |
| Schnorr.PubkeyGen | chaincraft/crypto_primitives/bip340.py:98-105 | the x-coordinate of the secret's multiple of G, exactly for secrets in range |
| Schnorr.SchnorrSign | chaincraft/crypto_primitives/bip340.py:108-137 | which errors occur, that a signature is the one of the derived nonce and verifies, and that the self-check never fails; SignatureBindsMessage and NonceDepends say what the message does |
| Schnorr.SchnorrVerify | chaincraft/crypto_primitives/bip340.py:140-155 | a length error, or exactly the verification equation with its range checks; VerifiesExactly says what passes it |
| Schnorr.SignedEquation | chaincraft/crypto_primitives/bip340.py:108-155 | the signer's response satisfies the verifier's equation for every challenge |
| Schnorr.SignatureVerifies | chaincraft/crypto_primitives/bip340.py:108-155 | every signature made with a nonzero nonce verifies |
| SchnorrBinding.VerifiesExactly | chaincraft/crypto_primitives/bip340.py:140-155 | for the public key of a secret: a signature verifies exactly when both halves are in range and s*G = R + e*P for even points R and P at the first half and the key, where e is the tagged hash of the first half, the key and the message |
| SchnorrBinding.SignatureBindsMessage | chaincraft/crypto_primitives/bip340.py:140-155 | a signature that verifies for one message verifies for another exactly when the two challenges agree |
| SchnorrBinding.NonceDepends | chaincraft/crypto_primitives/bip340.py:117-121 | wherever key, auxiliary randomness or message differ, some hash function gives different nonces |
| SchnorrBinding.XorCancels | chaincraft/crypto_primitives/bip340.py:75-76 | for strings of one length, either side of a bytewise exclusive or is fixed by the other and the result |
| SchnorrBinding.XorDigit | chaincraft/crypto_primitives/bip340.py:75-76 | a binary digit of the result is one where exactly one of the two digits is |
| MerkleDag.HeadsIdentify | chaincraft/core_objects.py:293-310 | two DAGs with equal heads, in any order of arrival, hold the same nodes exactly when they miss the same parents |
| MerkleDag.FrontierIdentifies | chaincraft/core_objects.py:487-500 | for any two runs, equal frontiers mean equal nodes exactly when the same parents are missing, and equal nodes mean equal frontiers exactly when the same heads are exposed |
| MerkleDag.FrontierNeverRecurs | chaincraft/core_objects.py:487-543 | in no run, whatever its order, do two moments have the same frontier digest |
| MerkleDag.SyncExact | chaincraft/core_objects.py:545-560 | from a frontier that B has passed through, A ends with B's nodes exactly when A misses nothing B held then and B misses nothing A holds |
| MerkleDag.SyncCondition | chaincraft/core_objects.py:545-560 | for any two runs, one exchange leaves A with B's nodes exactly when they held the same before, or A's frontier is one that B has passed through and nothing is missing on either side that the other held |
| MerkleDagArrival.NothingMissing | chaincraft/core_objects.py:293-310 | where parents arrive first nothing is missing or exposed, and the heads are the nodes without children |
| MerkleDag.HeadsExactIff | chaincraft/core_objects.py:293-310 | the heads are the nodes without children and the exposed ones; exactly the former when every node that is named is named by a later message |
| MerkleDagArrival.LateParent | chaincraft/core_objects.py:264-310 | a child before its parent: the same two messages in two orders have different frontier digests |
| MerkleDagArrival.OrphanLooksSynchronised | chaincraft/core_objects.py:517-560 | a child whose parent never arrives: a message that the check accepts, after which the frontier equals that of a node that has the parent, which answers with nothing |
| MerkleDagArrival.FrontierOfNodes | chaincraft/core_objects.py:487-500 | with parents first, frontier digests are equal exactly when the node sets are |
| MerkleDagArrival.SyncInOrder | chaincraft/core_objects.py:545-560 | with parents first, one exchange suffices exactly from a frontier that B has passed through; then the answer is exactly what A lacked and the frontiers become equal |
| MerkleDagArrival.SyncAccepted | chaincraft/core_objects.py:517-529 | where A holds and misses what B once did, what B sends after A's frontier passes A's own check, message by message, if it passed B's |
| MerkleDagObject.DAGObject.AddMessage | chaincraft/core_objects.py:531-543 | for any message, known, new or early, every index, the head list and the frontier index are those of the enlarged list of messages |
| MerkleDagObject.DAGObject.Record | chaincraft/core_objects.py:293-310 | the message lists, the parent index, the links and the heads after one message |
| MerkleDagObject.DAGObject.RemoveHeadDigest | chaincraft/core_objects.py:278-284 | removes a head from the set and from the sorted list |
| MerkleDagObject.DAGObject.AddHeadDigest | chaincraft/core_objects.py:286-291 | adds a head to the set and keeps the list sorted |
| MerkleDagObject.DAGObject.LinkParents | chaincraft/core_objects.py:293-310 | each parent gets the child and ceases to be a head |
| MerkleDagObject.DAGObject.CurrentFrontierDigest | chaincraft/core_objects.py:487-496 | the digest of the sorted heads, empty when there are none |
| MerkleDagObject.DAGObject.GetMessagesSinceDigest | chaincraft/core_objects.py:545-560 | the messages after a known frontier or node, and which digests are not known |
| MerkleDagRules.ParentsExactly | chaincraft/core_objects.py:250-276 | a parent is a digest that the message names, other than the empty one and genesis |
| MerkleDagRules.NormalizeInOrder | chaincraft/core_objects.py:250-262 | parents stand in the order in which they are first named |
| MerkleDagRules.FrontierIs | chaincraft/core_objects.py:487-496 | the frontier digest is the hash of version 1 with the heads in rising order, and empty without heads |
| MerkleDagRules.FitExactly | chaincraft/core_objects.py:517-529 | a message is fit exactly when every digest in its parent list, the empty one and genesis apart, has arrived and is still a head |
| Tangle.LinkWellFormed | chaincraft/consensus/dag/dagcoin.py:62-86 | children stay the mirror of parents |
| Tangle.NewApproves | chaincraft/consensus/dag/dagcoin.py:62-86 | a new transaction approves exactly the ancestors of its parents |
| Tangle.AddRaisesAncestors | chaincraft/consensus/dag/dagcoin.py:93-104 | an addition raises exactly its ancestors' cumulative weight, by its weight |
| Tangle.NewWeight | chaincraft/consensus/dag/dagcoin.py:93-104 | a new transaction starts with its own weight |
| TangleEngine.DAGcoin.CumulativeWeightOf | chaincraft/consensus/dag/dagcoin.py:93-104 | the search sums each approver exactly once |
| TangleEngine.DAGcoin.IsConflictLeader | chaincraft/consensus/dag/dagcoin.py:116-124 | heavier than every other member of the conflict set |
| TangleEngine.DAGcoin.Reevaluate | chaincraft/consensus/dag/dagcoin.py:106-114 | the flags grow by exactly the confirmable transactions |
| TangleEngine.DAGcoin.SelectTips | chaincraft/consensus/dag/dagcoin.py:88-90 | the first tips in sorted order, or genesis |
| TangleEngine.DAGcoin.Insert | chaincraft/consensus/dag/dagcoin.py:77-84 | links, tips and conflict sets after an insertion |
| TangleEngine.DAGcoin.AddTx | chaincraft/consensus/dag/dagcoin.py:62-86 | every outcome with its condition and the new state, with explicit parents or the first two tips; errors change nothing |
| TangleEngine.ReevaluateConsistent | chaincraft/consensus/dag/dagcoin.py:62-114 | an addition keeps tips and conflict sets exact and the flags equal to the threshold predicate |
| TangleEngine.ConfirmedExactly | chaincraft/consensus/dag/dagcoin.py:62-124 | after every run of calls, with explicit or defaulted parents, a conflict-free transaction is confirmed if and only if its cumulative weight has reached the threshold |
| TangleEngine.ConfirmedOnce | chaincraft/consensus/dag/dagcoin.py:106-124 | a confirmed transaction stays confirmed in every continuation, and had the weight and the lead over its rivals at some moment of the run |
| TangleRules.ConfirmedIff | chaincraft/consensus/dag/dagcoin.py:106-124 | a transaction, with or without rivals, is confirmed exactly when at some moment of the run it had the weight and more than every rival |
| TangleRules.OneWinner | chaincraft/consensus/dag/dagcoin.py:116-124 | at any moment at most one transaction of a conflict has won |
| TangleRules.DefaultParents | chaincraft/consensus/dag/dagcoin.py:88-90 | by default the two smallest tips are approved, the one tip there is, or genesis |
| TangleEngine.ResolvedReplay | chaincraft/consensus/dag/dagcoin.py:129-146 | replaying what a node broadcasts, with the parents it chose, gives the node's own state |
| TangleEngine.OrderIndependent | chaincraft/consensus/dag/dagcoin.py:62-124 | nodes with the same transactions agree on tips, weights and conflict-free confirmations |
| TangleEngine.ReplayConsistent | chaincraft/consensus/dag/dagcoin.py:62-124 | after every run of calls, refused ones included, tips and conflict sets are exact and flags justified |
| TangleEngine.ArrivalOrder | chaincraft/consensus/dag/dagcoin.py:62-124 | two parent-first orders of the same transactions with the parents they got end in the same tangle, tips and conflict-free confirmations |
| Avalanche.ClosureIsLeast | chaincraft/consensus/gossip/avalanche.py:198-215 | accepting until nothing is left gives the least closed superset |
| Avalanche.LeastClosedUnique | chaincraft/consensus/gossip/avalanche.py:198-205 | any iteration order ends in the same set |
| Avalanche.ClosureExact | chaincraft/consensus/gossip/avalanche.py:198-215 | a closure accepts exactly the ready vertices whose known parents it accepts |
| Avalanche.OneNewMember | chaincraft/consensus/gossip/avalanche.py:207-215 | one closure accepts at most one new member of a set, its preference |
| Avalanche.QuerySound | chaincraft/consensus/gossip/avalanche.py:179-205 | a query keeps preference maximal and counter bounded, undoes no acceptance and leaves nothing acceptable waiting |
| Avalanche.ReplaySound | chaincraft/consensus/gossip/avalanche.py:112-215 | in every run the preference has maximal confidence and the counter never exceeds the confidence of the member it counts |
| Avalanche.AcceptedWithAncestors | chaincraft/consensus/gossip/avalanche.py:207-215 | with parents added first, the parents of accepted vertices are accepted |
| Avalanche.RivalNeedsMore | chaincraft/consensus/gossip/avalanche.py:179-215 | a rival accepted later has strictly more confidence than the first had at its acceptance |
| AvalancheEngine.QuorumIsShare | chaincraft/consensus/gossip/avalanche.py:107-109 | a vote count is a quorum exactly when it is a share alpha of the sample, and a full sample is one |
| AvalancheEngine.AcceptedAncestry | chaincraft/consensus/gossip/avalanche.py:140-149 | with parents added first every ancestor of an accepted vertex is accepted |
| AvalancheEngine.AvalancheConsensus.Add | chaincraft/consensus/gossip/avalanche.py:112-138 | a new vertex joins its conflict set with confidence 0, a known one changes nothing |
| AvalancheEngine.AvalancheConsensus.Record | chaincraft/consensus/gossip/avalanche.py:179-196 | the Snowball step and the closure that follows it |
| AvalancheEngine.AvalancheConsensus.SnowballStep | chaincraft/consensus/gossip/avalanche.py:179-195 | confidence, preference, last success and counter after a query |
| AvalancheEngine.AvalancheConsensus.TryAcceptAll | chaincraft/consensus/gossip/avalanche.py:198-205 | the nested loop terminates in the least closed superset of the accepted set |
| AvalancheEngine.AvalancheConsensus.Sweep | chaincraft/consensus/gossip/avalanche.py:201-205 | a sweep accepts only what every closed superset holds, and one that changes nothing leaves nothing acceptable |
| AvalancheEngine.AvalancheConsensus.Acceptable | chaincraft/consensus/gossip/avalanche.py:207-215 | known parents accepted, preferred, and the counter at the threshold for the size of the set |
| AvalancheEngine.AvalancheConsensus.Ancestors | chaincraft/consensus/gossip/avalanche.py:140-149 | the search finds the least set closed under known parents |
| AvalancheEngine.AvalancheConsensus.IsStronglyPreferred | chaincraft/consensus/gossip/avalanche.py:152-161 | preferred in its set, and so is every ancestor |
| AvalancheRules.AddExactly | chaincraft/consensus/gossip/avalanche.py:112-138 | a new vertex stands last in its conflict set, which is its own where none is named, and is preferred where it is the first |
| AvalancheRules.OnePreferred | chaincraft/consensus/gossip/avalanche.py:152-161 | at most one member of a conflict set is preferred |
| AvalancheRules.SomePreferred | chaincraft/consensus/gossip/avalanche.py:152-161 | and one is |
| AvalancheRules.SuccessesCount | chaincraft/consensus/gossip/avalanche.py:179-195 | k successes in a row raise the confidence by k, the counter to k or by k, and make the vertex preferred once it has more confidence |
| AvalancheRules.FailureResets | chaincraft/consensus/gossip/avalanche.py:179-195 | a failed query sets the counter to zero and changes nothing else |
| AvalancheRules.StreakAccepts | chaincraft/consensus/gossip/avalanche.py:198-215 | a vertex whose known parents are accepted is accepted within k successes in a row exactly when one of them takes its streak to the threshold with the vertex preferred |
| AvalancheRivals.AcceptedExactly | chaincraft/consensus/gossip/avalanche.py:198-215 | in any state a closure accepts a vertex exactly when it and all it needs are ready and no cycle of parents is in the way |
| AvalancheRivals.AcceptedIff | chaincraft/consensus/gossip/avalanche.py:179-215 | where its parents are accepted, one query accepts a vertex exactly when its set's preference and counter allow it, whatever rival was accepted before |
| AvalancheRivals.EarnedIff | chaincraft/consensus/gossip/avalanche.py:179-215 | in any state, a query accepts a vertex exactly when it was accepted, or it and each of its needs are ready after the Snowball step and no cycle is in the way |
| AvalancheRivals.EarnsInOrder | chaincraft/consensus/gossip/avalanche.py:198-215 | with parents first no cycle is in the way |
| AvalancheRivals.EarnedByAncestors | chaincraft/consensus/gossip/avalanche.py:140-215 | with parents first, a query accepts a vertex exactly when it was accepted, or it and those of the ancestors that the search finds that are not accepted are ready |
| AvalancheRivals.QueryKeepsOne | chaincraft/consensus/gossip/avalanche.py:179-215 | in any sound state, a query keeps at most one accepted member in each conflict set exactly when no rival of an accepted vertex earns acceptance |
| AvalancheRivals.RunKeepsOne | chaincraft/consensus/gossip/avalanche.py:112-215 | a whole run, with parents in any order, accepts at most one member of each conflict set exactly when none of its queries clashes |
| AvalancheRivals.BothRivalsAccepted | chaincraft/consensus/gossip/avalanche.py:179-215 | a run that accepts two conflicting transactions, the first on the other's successes |
| Mempool.ExpireExact | chaincraft/mempool/policy.py:192-200 | expiry removes exactly the entries older than the time to live |
| Mempool.AddSound | chaincraft/mempool/policy.py:134-182 | an addition keeps size, fee floor, sender cap and the exact slot index, and a rejected one changes nothing but expiry |
| Mempool.DiscardSound | chaincraft/mempool/policy.py:217-223 | a removal keeps the limits and the index |
| Mempool.ReplacedPaysMore | chaincraft/mempool/policy.py:150-159 | a slot changes hands only for the required increase, and its former holder leaves; ReplacementExactly is the converse too |
| MempoolOutcomes.ReplacementExactly | chaincraft/mempool/policy.py:150-159 | a bid for a slot that is held is taken exactly when replacement is enabled and it pays the holder's fee and the increase, then the holder alone gives way; the two refusals exactly otherwise |
| MempoolOutcomes.EarlyOutcomes | chaincraft/mempool/policy.py:134-149 | a bid is a duplicate exactly when its id waits, and below the floor exactly when its fee is; a refused bid leaves exactly what has not expired |
| MempoolOutcomes.AdmissionExactly | chaincraft/mempool/policy.py:160-182 | a bid for a free slot is refused exactly at the sender's cap, or by a full pool without a lower bid; in a full pool the first of the lowest bids goes |
| MempoolOutcomes.LowestExactly | chaincraft/mempool/policy.py:225-228 | the victim is the first in order of arrival of those with the lowest fee |
| MempoolOutcomes.AddInOrder | chaincraft/mempool/policy.py:134-182 | what an admission leaves stands in the order of arrival, and a bid that is taken comes last |
| Mempool.TopUnique | chaincraft/mempool/policy.py:169-175 | the k largest fees are one multiset |
| MempoolRuns.RunSound | chaincraft/mempool/policy.py:134-200 | after every run of offers, removals, inclusions and expiries the limits hold and the index is the inverse of the slots |
| MempoolRuns.HeldWasOffered | chaincraft/mempool/policy.py:134-200 | after every such run whatever is held was offered, with the fee and slot it has |
| MempoolRuns.LowestIsLeast | chaincraft/mempool/policy.py:225-228 | the victim of a full pool holds the lowest fee in it |
| MempoolRuns.HighestBiddersStay | chaincraft/mempool/policy.py:134-182 | for distinct ids and slots, no time to live and no sender cap, the held fees are the largest eligible fees ever offered |
| TransactionPools.TransactionPool.Offer | chaincraft/mempool/policy.py:134-182 | state and outcome of every admission; MempoolOutcomes gives each outcome its own condition |
| TransactionPools.TransactionPool.Admit | chaincraft/mempool/policy.py:169-182 | eviction of the lowest bid and insertion |
| TransactionPools.TransactionPool.Remove | chaincraft/mempool/policy.py:217-223 | the entry and its slot leave together |
| TransactionPools.TransactionPool.RemoveIncluded | chaincraft/mempool/policy.py:188-190 | all listed entries leave |
| TransactionPools.TransactionPool.EvictExpired | chaincraft/mempool/policy.py:192-200 | the expired ids in order of arrival, and the pool without them |
| TransactionPools.TransactionPool.LowestFeeEntry | chaincraft/mempool/policy.py:225-228 | the first of the lowest bids |
| TransactionPools.TransactionPool.Count | chaincraft/mempool/policy.py:130-131 | the number of a sender's entries |
| Fees.NestedFloor | chaincraft/fees/eip1559.py:57-65 | two floor divisions in a row are one by the product |
| Fees.BaseFeeMonotoneInCount | chaincraft/fees/eip1559.py:51-65 | a fuller parent block never means a lower base fee |
| Fees.BaseFeeMonotoneInBase | chaincraft/fees/eip1559.py:51-65 | a higher base fee never means a lower next one |
| Fees.BaseFeeStep | chaincraft/fees/eip1559.py:51-65 | never below the floor, down by at most base/D, up by at most max(1, base/D) for at most twice the target; NextBaseFeeExactly gives the size of the move |
| FeeRules.NextBaseFeeExactly | chaincraft/fees/eip1559.py:51-65 | the next base fee is the last plus a rise or minus a fall, and at least the floor; rise and fall are bounded on both sides by multiples of target and denominator |
| FeeRules.MovesOnce | chaincraft/fees/eip1559.py:51-65 | those bounds leave one number |
| Fees.EmptyBlocksRest | chaincraft/fees/eip1559.py:51-65 | empty blocks bring the base fee to max(floor, min(start, D-1)) and keep it there |
| Fees.RankedRanks | chaincraft/fees/eip1559.py:35-41 | ranking is a falling permutation |
| Fees.RankedStable | chaincraft/fees/eip1559.py:35-41 | equal bids keep their order of arrival |
| Fees.SelectionIsBest | chaincraft/fees/eip1559.py:30-41 | a block takes the best eligible bids, as many as fit |
| FeeRules.SelectionExactly | chaincraft/fees/eip1559.py:30-41 | a block takes as many as fit of the bids that reach the price, in falling order, and leaves out none that is higher than one taken |
| Fees.MedianBetween | chaincraft/fees/median.py:16-24 | the clearing price lies between the lowest and highest selected bid |
| FeeRules.MedianExactly | chaincraft/fees/median.py:16-24 | half of the bids are at least the median and half at most; it is the middle bid, or the mean of the two in the middle rounded down |
| Fees.SelectedCharge | chaincraft/fees/eip1559.py:43-49 | every selected bid can be charged, only the clearing price differs from the bid, only the base fee is burned |
| BalanceLedger.TxConserves | chaincraft/ledger/balance.py:129-159 | a transaction neither creates nor loses value, what leaves the supply is burned |
| BalanceLedger.TxSolvent | chaincraft/ledger/balance.py:110-159 | a charge within the declared fee leaves nobody in debt |
| BalanceLedger.TxSolventIff | chaincraft/ledger/balance.py:129-159 | exactly when a charge of any size leaves nobody in debt |
| BalanceLedger.TxNonce | chaincraft/ledger/balance.py:115-120 | the sender's nonce is used up and nobody else's moves |
| BalanceLedger.BlockConserves | chaincraft/ledger/base.py:106-130 | a block adds its reward to supply and burned value, and nothing else |
| BalanceLedger.BlockSolvent | chaincraft/ledger/base.py:106-130 | a block whose charges stay within the bids leaves nobody in debt |
| BalanceLedger.BlockCounts | chaincraft/ledger/base.py:106-130 | every sender's nonces are used in order, each once |
| BalanceLedger.NoReplay | chaincraft/ledger/balance.py:115-120 | where nonces count up no transaction occurs twice |
| BalanceBlocks.TxTaken | chaincraft/ledger/balance.py:110-127 | a transaction is taken exactly when amount and fee are not negative, the nonce fits where enforced, and the balance covers both unless overdrafts are allowed |
| BalanceBlocks.FirstError | chaincraft/ledger/balance.py:110-127 | the errors in the order in which they are found |
| BalanceLedger.BalanceLedgerModel.Block | chaincraft/ledger/base.py:106-130 | the loop applies the block or stops at the first error |
| BalanceBlocks.AllTallied | chaincraft/ledger/balance.py:141-159 | after accepted transactions each account has changed by the sum of what they are worth to it, however sender, recipient and producer coincide |
| BalanceBlocks.BlockTallied | chaincraft/ledger/base.py:106-130 | after an accepted block each account has changed by what its transactions are worth to it, and the producer, or the fee account, has the reward besides |
| BalanceBlocks.BlockOrder | chaincraft/ledger/base.py:106-130 | two accepted blocks of the same transactions at the same charges leave the same books in any order |
| BalanceBlocks.BlockSolventIff | chaincraft/ledger/base.py:106-130 | nobody is in debt at any moment of a block exactly when each transaction in its turn is covered |
| Blockchain.ChosenCharges | chaincraft/config.py:274-281 | every chosen transaction can be charged, within its bid unless the policy clears at the median |
| BlockchainRules.IncludedExactly | chaincraft/config.py:274-292 | a block includes all that fit of the waiting transactions that pay the price, the highest bids first, and exactly these stop waiting |
| BlockchainRules.TotalsExactly | chaincraft/config.py:279-281 | what a block burns is the base fee for each transaction, or nothing under other policies; burned and tips together are the declared fees, or the median for each |
| BlockchainRules.FollowsExactly | chaincraft/config.py:294-308 | index, producer, base fee and snapshot of the block, and the base fee that follows from the number of its transactions |
| BlockchainRules.SubmitExactly | chaincraft/config.py:245-254 | a transaction below the price changes nothing, any other is a bid of its fee, sender and nonce |
| Blockchain.IncludedWerePending | chaincraft/config.py:274-292 | included transactions were pending and are gone from the pool |
| Blockchain.StepAccounted | chaincraft/config.py:245-308 | every step, failed blocks included, keeps the books |
| Blockchain.Run | chaincraft/config.py:245-308 | after any run supply plus burned is what was issued, burned is what the blocks say, nonces count up, nobody is in debt, the base fee is above its floor |
| Blockchain.NeverIncludedTwice | chaincraft/config.py:274-308 | no transaction is included twice |
| BlockchainEngine.ChainEngine.SubmitTx | chaincraft/config.py:245-254 | the new state, and true exactly when the fee passes the policy and the mempool admits the transaction |
| BlockchainEngine.ChainEngine.Readmit | chaincraft/config.py:260-262 | a reverted transaction goes through the mempool's own admission |
| BlockchainEngine.ChainEngine.ProduceBlock | chaincraft/config.py:274-308 | the block, state, base fee and pool that follow, or nothing but expiry when the ledger refuses; BlockchainRules says what they are |
| BlockchainEngine.MedianOverdraws | chaincraft/fees/median.py:35-49 | an input on which the clearing price leaves an account in debt |
| UtxoLedger.InputsGood | chaincraft/ledger/utxo.py:104-112 | inputs pass exactly when they are distinct and unspent |
| UtxoLedger.TxConserves | chaincraft/ledger/utxo.py:124-158 | a transaction with unused output ids neither makes nor loses value |
| UtxoLedger.CoinbaseAdds | chaincraft/ledger/utxo.py:160-169 | a coinbase adds its reward to the supply exactly when its id is not in use for an amount |
| UtxoRules.RewardExactly | chaincraft/ledger/utxo.py:160-169 | a coinbase gives its payee the reward under its own id, and touches no output of another id |
| UtxoRuns.GenesisSupply | chaincraft/ledger/utxo.py:91-97 | the genesis outputs hold exactly what was allocated |
| UtxoRules.GenesisExactly | chaincraft/ledger/utxo.py:91-97 | every account of the genesis starts with an output of its own over what was allocated to it |
| UtxoRuns.NewTransaction | chaincraft/ledger/utxo.py:99-158 | a transaction once applied can never be applied again, so its output ids are new |
| UtxoRuns.TxKeeps | chaincraft/ledger/utxo.py:124-158 | applying a transaction, whatever it burns, reuses nothing, and what leaves the supply is burned |
| UtxoRuns.CreditKeepsIff | chaincraft/ledger/utxo.py:160-169 | a coinbase reuses no id exactly when the supply differs from the one named by every earlier coinbase of its payee and reward |
| UtxoRuns.RunKeepsIff | chaincraft/ledger/utxo.py:99-169 | a run, whatever it burns, creates no id twice, lets no spent id return and applies no transaction twice exactly when each coinbase meets a new supply; then supply and burned value grow by one reward a block |
| UtxoRuns.BurningLess | chaincraft/ledger/utxo.py:99-169 | that holds where each block burns less than the reward, or there is no reward |
| UtxoRuns.RunIs | chaincraft/ledger/base.py:106-130 | the recorded run is the ledger's own state after the blocks, refused ones left out |
| UtxoRuns.NothingReused | chaincraft/ledger/utxo.py:99-169 | in every run that burns nothing no id is created or spent twice, no transaction applied twice, and supply is genesis plus one reward per block |
| UtxoEngine.UTXOLedgerModel.Validate | chaincraft/ledger/utxo.py:99-122 | the first error in the order of the checks, or none |
| UtxoLedger.TxTaken | chaincraft/ledger/utxo.py:99-135 | a transaction is taken exactly when its fee is not negative, its inputs are some, distinct and unspent, no output is negative, the amounts balance, and the charge is the fee |
| UtxoRules.PaidExactly | chaincraft/ledger/utxo.py:142-158 | an applied transaction whose output ids are unused spends its inputs, gives each output its owner and amount under its own number, gives the tip to the producer, burns what the charge says, and touches nothing else |
| UtxoRules.FirstError | chaincraft/ledger/utxo.py:99-135 | the errors in the order in which they are found |
| UtxoRules.InputErrorExactly | chaincraft/ledger/utxo.py:104-112 | of the inputs the first that is unknown or repeated is reported, and as which |
| UtxoEngine.UTXOLedgerModel.Edit | chaincraft/ledger/utxo.py:142-158 | inputs out, numbered outputs and tip in |
| UtxoEngine.UTXOLedgerModel.TotalSupply | chaincraft/ledger/utxo.py:67-68 | the sum of all unspent amounts |
| UtxoEngine.UTXOLedgerModel.CreditCoinbase | chaincraft/ledger/utxo.py:160-169 | the reward under an id made of payee, reward and supply |
| UtxoEngine.UTXOLedgerModel.Block | chaincraft/ledger/base.py:106-130 | the loop applies the block or stops at the first error |
| UtxoBurning.BurningReusesAnId | chaincraft/ledger/utxo.py:160-169 | a run in which a coinbase has the id of an unspent one and overwrites it |
| UtxoBurning.SpentIdReturns | chaincraft/ledger/utxo.py:124-169 | a run in which a spent coinbase id is unspent again and its transaction is applied twice, though no value is lost |
| CachedLedger.SettleSum | examples/blockchain.py:685-695 | a block changes the sum of the balances by its reward |
| CachedLedgerRules.SettleTallied | examples/blockchain.py:685-695 | a block gives its miner the reward and every account the sum of what its transactions are worth to it |
| CachedLedger.SettleNonNegative | examples/blockchain.py:564-590 | a block that passes validation leaves no balance negative |
| CachedLedgerRules.ValidExactly | examples/blockchain.py:543-590 | a block is valid exactly when its work is proven, it follows a known block at the next index, and each transaction in its turn is well formed and covered |
| CachedLedgerRules.GenesisExactly | examples/blockchain.py:502-523 | the first block holds a thousand coins, all at the zero address |
| CachedLedger.BestExactly | examples/blockchain.py:660-669 | the best block has the highest index, and among those the smallest hash |
| CachedLedger.AddConsistent | examples/blockchain.py:597-660 | a valid block keeps every cached state exact and backed, and chain and balances those of the best block |
| CachedLedger.AddExact | examples/blockchain.py:597-660 | any block that follows a known one, checked or not, keeps every cached state exact and chain and balances those of the best block |
| CachedLedger.AddBacked | examples/blockchain.py:618-637 | and keeps every state nowhere negative exactly when the new block's own state is nowhere negative |
| CachedLedger.CacheIsReplay | examples/blockchain.py:618-626 | the cached state of every block on any fork is the replay of its path |
| CachedLedger.SameBlocksSameState | examples/blockchain.py:597-669 | the whole state is determined by the blocks held |
| CachedLedger.EveryStateBacked | examples/blockchain.py:525-695 | in every run each cached state is a replay, nowhere negative, and worth 1000 plus reward times index; balances are those of the best block |
| CachedLedger.Convergence | examples/blockchain.py:597-669 | ledgers that end up with the same blocks agree on everything |
| CachedLedgerRuns.ValidThere | examples/blockchain.py:543-590 | validity depends on nothing but the parent and its state |
| CachedLedgerRuns.OrderIndependent | examples/blockchain.py:525-669 | of two orders of the same blocks with parents first, if one is valid throughout so is the other, and both end in the same state |
| CachedLedgerEngine.Ledger.Accepts | examples/blockchain.py:543-590 | the loop over simulated balances decides exactly validity |
| CachedLedgerEngine.Ledger.NextState | examples/blockchain.py:685-695 | the loop computes the block's balances |
| CachedLedgerEngine.Ledger.BuildChain | examples/blockchain.py:671-683 | the loop returns the path from genesis |
| CachedLedgerEngine.Ledger.Place | examples/blockchain.py:618-637 | the block and its state are stored, and chain and balances move if it beats the tip |
| CachedLedgerEngine.Ledger.AddMessage | examples/blockchain.py:609-658 | for a known, orphaned or new block, checked or not: the new state, a memento that reports exactly the move of the chain, or the failure for want of a parent |
| CachedLedgerEngine.MementoExact | examples/blockchain.py:639-648 | the memento of a move is the only one that reports it: beyond the longest common beginning the old chain held the reverted transactions and the new one holds the applied, and it is a reorganisation when the old one went on |
| CachedLedgerRules.CollectExactly | examples/blockchain.py:639-648 | the transactions of a list of blocks are those of each block in turn |
| CachedLedgerEngine.ChangeIs | examples/blockchain.py:639-658 | filtering each chain by the other gives exactly what lies beyond their common beginning |
| Lattice.ProposeSound | chaincraft/consensus/dag/lattice.py:108-161 | every operation keeps chains linked, claims single and value constant |
| Lattice.ExtensionIsNew | chaincraft/consensus/dag/lattice.py:141-155 | a block on top of its account's chain is never already known |
| Lattice.RunSound | chaincraft/consensus/dag/lattice.py:108-173 | over every run balances plus unclaimed sends equal what was opened, and each send is claimed at most once |
| Lattice.RunNonNegative | chaincraft/consensus/dag/lattice.py:108-161 | with non-negative opens no balance is ever negative |
| Lattice.TransferCompletes | chaincraft/consensus/dag/lattice.py:108-161 | a send and the receive that claims it move the amount between accounts, or back to the same one, and no second receive claims it |
| LatticeVotes.VoteSound | chaincraft/consensus/dag/lattice.py:164-173 | ballots hold the configured weights and among the voters of a confirmed block is a quorum, for weights of any sign |
| LatticeRules.VoteExactly | chaincraft/consensus/dag/lattice.py:164-173 | a vote counts with its configured weight and confirms exactly when the ballot then holds more than half of all weight; without any weight that is an error |
| LatticeRules.ConfirmedIff | chaincraft/consensus/dag/lattice.py:164-173 | over every run, a block is confirmed exactly when at some moment its voters held more than half of all weight, whatever the sign of the weights |
| LatticeRules.ConfirmedNow | chaincraft/consensus/dag/lattice.py:164-173 | with weights that are never negative, exactly when they hold it now |
| LatticeVotes.SharedVoterIff | chaincraft/consensus/dag/lattice.py:90-98 | any two confirmed blocks of any run share a voter exactly when no two disjoint groups of representatives both reach the quorum |
| LatticeVotes.QuorumsOverlap | chaincraft/consensus/dag/lattice.py:90-98 | weights that are never negative have no two disjoint quorums |
| LatticeVotes.NegativeWeightSplits | chaincraft/consensus/dag/lattice.py:90-98 | three weights, one of them negative, with two disjoint quorums |
| Lattice.BuiltExactly | chaincraft/consensus/dag/lattice.py:108-138 | an account is opened once, a send is covered by the balance, a receive claims a send that nothing has claimed; everything else is refused |
| LatticeRules.OpenAdds | chaincraft/consensus/dag/lattice.py:108-112 | an account is opened with its first amount, from the source it names; nothing else changes |
| LatticeRules.SendAdds | chaincraft/consensus/dag/lattice.py:114-122 | a send takes its amount from the sender, names the recipient, sits on the sender's chain and waits to be claimed |
| LatticeRules.ReceiveAdds | chaincraft/consensus/dag/lattice.py:124-138 | a receive gives its account what the send took, sits on that account's chain and claims the send |
| LatticeRules.ForkWaits | chaincraft/consensus/dag/lattice.py:141-151 | a block beside the end of its account's chain is kept for the vote and moves nothing |
| LatticeEngine.NanoLattice.Extend | chaincraft/consensus/dag/lattice.py:141-161 | a block on its account's head is applied, any other only remembered |
| LatticeEngine.NanoLattice.ProposeOp | chaincraft/consensus/dag/lattice.py:179-182 | an operation is built and applied, a refused one changes nothing |
| LatticeEngine.NanoLattice.RecordVote | chaincraft/consensus/dag/lattice.py:164-173 | the ballot, the confirmation, and the error when no weight is configured |

## Left out

- Networking, storage and node code: `chaincraft/node.py`, `nat_traversal.py`, `index_helper.py`, the command-line tools, demos and scripts are not modelled.
- PBFT, HotStuff, hashgraph and the sampling examples are not modelled: the vote-once and quorum reasoning is that of Tendermint, the counters those of Avalanche.
- `set_validators` during a run: the validator set of the Tendermint system is fixed.
- Tendermint rounds: the engine never leaves round 0 within a height, so the system lemmas speak of round 0.
- `add_digest` of the merkelized objects.
- The persistent store and cache of the core objects: the model keeps the values they hold.
- The hash functions themselves, and that the proof-of-work search ends: mining requires that some nonce meets the difficulty.
- Primality of the VDF's field constant and of p and n of secp256k1, associativity of the addition of its points, that none of them has y = 0, and that n takes the base point to infinity: they are preconditions of the lemmas that need them.
- CachedLedgerEngine.Ledger.AddMessage: a new block whose index is not one above its known parent's is not covered, because `is_valid` refuses it and the node adds a message only after every object has accepted it (chaincraft/node.py:577-579).
- CachedLedgerEngine.Ledger.Place: likewise, a block that does not follow a known one at the next index.
- Floating point: thresholds and times are real numbers without rounding.
- Payload pricing and payload size limits of the fee policies: every payload costs nothing and fits.
- `metadata` of ledger transactions, which is not part of a transaction's id.
- The mempool's and the chain's configuration errors: a sound configuration is a precondition, as the constructors check it.
- `children_by_hash` of the cached ledger and `_children` of Avalanche: they are written and never read.
- Transaction messages of the cached ledger, which change nothing there, and the example mempool that receives its mementos.
- `observe` of the lattice with competing blocks: the lattice runs are runs of `propose` and of votes, in which no fork arises; the branch that remembers a competing block is in `Lattice.Apply`.
- Broadcasting: messages are recorded only where another node's state depends on them (Tendermint).
- A transaction the ledger refuses stays in the pool, as in the program; no progress of block production is claimed.
