# Verification of the proving service

A Dafny 4.11 model of three parts of the service, with proofs. `dafny verify dfyconfig.toml` checks all of it. Automatic induction is switched off on the lemmas, so a proof by induction shows its recursive calls, and `hide` keeps definitions a proof does not need out of its way.

## What is modelled

**The proof-aggregation protocol.** One proving task is a transition system (`Protocol`) of the emulator, the gateway, any number of workers, and three unbounded FIFO channels: emulator to gateway, gateway to the shared request queue, workers to the shared reply queue. A proof is a term, a `Leaf` for a converted chunk or a `Node` for a combination with its flag; what it establishes is its in-order list of leaves. The proof tree is the ordered map of the source, mutated in place by the class `ProofTree`; its entries in key order are a list of consecutive segments, and `set_proof` is proved to be one merge step on that list. A panic (`assert!`, `unwrap`, index, `panic!`) is a value, so its absence is a theorem. The verdict on the final embed proof is chosen freely at every answer. `Invariants` holds the inductive invariant, `Safety` what follows from it in every reachable state, `Liveness` the termination measure and the shape of the states a run can end in, `Witness` two concrete runs, and `Refinement` ties the transition system to the loops written as methods (`Gateways.Run`, `Workers.Run`, `Emulators.Forward`).

The gateway's `select_biased!` prefers the emulator, but the poll of the emulator channel and the receive from the workers are not one atomic action, so the transition system lets either receive happen whenever its queue is not empty. Everything proved holds for the biased runs in particular; the runs in `Witness` respect the bias.

**The Groth16 verifier contract** (`Groth16`, `VerifierPaths`, `Equation`). Point compression and decompression over Fp and Fp2, and the two verification paths, over a record of precompiles that are deterministic functions. The compression round trips, the agreement of the two paths and the curve equations use nothing about MODEXP beyond that; which points are accepted and that compressed words are canonical use that MODEXP is the modular power (`Faithful`) and that Fermat's little theorem holds for P (`Fermat`), which is what P being prime is needed for. The facts the contract's comments state without proof (no point with x = 0, no point of G1 with y = 0) are proved from Fermat's little theorem by short certificates for the contract's own constants (`Bn254`). What the bits of a compressed point say is stated without the code that finds them (`Groth16Encoding`). `Equation` says what both verification paths decide: for precompiles that add, multiply and pair discrete logarithms modulo R (`Lawful`), they accept exactly the proofs that satisfy the Groth16 equation for the contract's own key, whose points are proved to lie on their curves (`VerifyingKey`).

**Smaller parts.** The result store under interleaved readers (`ResultStore`), the decoder of gnark's textual proofs (`Gnark`), and the masked digest (`Words`).

## Findings

- `flag_complete` means that the two proofs cover the chunks initialised so far. With three or more chunks the gateway can issue a flagged combine, and deliver an embed proof, for the first two only (`Witness.PrematureDelivery`). The j-th combine of a run, counting from 0, is flagged exactly when j + 2 chunks have been initialised; it covers the whole run exactly when all have been (`Safety.FlagMeans`, `Safety.FlaggedCoversRun`).
- A run in which the final proof is rejected comes to rest without the completion callback firing (`Witness.RejectionStalls`); a run that can go no further has delivered exactly when some flagged combine was accepted (`Liveness.WhereRunsEnd`). Without rejections a run delivers exactly when there are at least two chunks (`Liveness.DeliversWithTwoChunks`).
- `compress_g2` and `decompress_g2` invert the real part of y, so they refuse every point of the twist with y0 = 0, although the comment at line 347 allows y0 to be zero and the error is documented as "not on the curve". Such points exist: (x, 2i) for the x in `Bn254.IMAGINARY`. Compression accepts exactly the other points (`Groth16Roots.CompressG2Accepts`).
- `verifyCompressedProof` compares the pairing's answer with 1, `verifyProof` keeps its low bit; they agree because the precompile answers 0 or 1 (`VerifierPaths.AnswersBit`).

## Model

| member | source | states |
|---|---|---|
| ProofTrees.LowerKey | src/proving/gateway/handler/proof_tree.rs:144-146 | the greatest key below the index, or that there is none |
| ProofTrees.HigherKey | src/proving/gateway/handler/proof_tree.rs:151-155 | the least key above the index, or that there is none |
| ProofTrees.ProofTree.InitNode | src/proving/gateway/handler/proof_tree.rs:124-132 | the map gains a fresh in-progress node; the assertion holds exactly when the index was absent |
| ProofTrees.ProofTree.SetProof | src/proving/gateway/handler/proof_tree.rs:135-184 | the new map and the pair to combine are those of the specified step; it panics exactly when the node is missing |
| ProofTrees.SetProofRefinesList | src/proving/gateway/handler/proof_tree.rs:135-184 | on the entries in key order, set_proof is the list step: a proved neighbour is absorbed, the left one first, the current key kept, the two proofs in order |
| ProofTrees.RepresentsUnique | src/proving/gateway/handler/proof_tree.rs:95-97 | an ordered map has one listing in key order |
| Segments.SetProofKeeps | src/proving/gateway/handler/proof_tree.rs:135-184 | a merge step keeps the chain of consecutive segments and never leaves two proved neighbours; the pair is adjacent and exact; one node is left exactly when the pair covers all chunks |
| Segments.HeldIsInterval | src/proving/gateway/handler/proof_tree.rs:124-184 | a well-formed tree holds exactly chunks 0 to k-1 in key order |
| Segments.LengthBound | src/proving/gateway/handler/proof_tree.rs:142-178 | without proved neighbours the length is at most twice the nodes in progress plus one |
| Gateways.GatewayHandler.ProcessRiscvReq | src/proving/gateway/handler/mod.rs:52-66 | the handler's new fields, and when it panics |
| Gateways.GatewayHandler.Process | src/proving/gateway/handler/mod.rs:67-128 | the handler's new fields and its answer for every message, and when it panics |
| Gateways.Turn | src/proving/gateway/mod.rs:29-107 | one turn of the select loop on the handler object: status, messages sent, callback |
| Gateways.Run | src/proving/gateway/mod.rs:25-108 | the whole loop on the messages it receives, until it leaves |
| Workers.Run | src/proving/worker/prover/mod.rs:77-169 | everything a worker sends for the messages it takes and the verdicts it gets |
| Workers.ExitFollowsEmbed | src/proving/worker/prover/mod.rs:140-146 | a worker's only Exit is its last message and comes right after its only Embed |
| Emulators.Forward | src/proving/emulator.rs:106-126 | one request per record numbered 0, 1, 2, ..., then EmulatorComplete |
| Proofs.CombinedCovers | src/proving/worker/prover/combine.rs:60-78 | the combination of two adjacent exact proofs covers exactly the joint range it claims |
| Refinement.GatewayFollowsLoop | src/proving/gateway/mod.rs:29-107 | in every run the gateway is where its loop is after the messages it received, and has appended to the request queue what the loop sends, in the same order |
| Refinement.WorkerFollowsLoop | src/proving/worker/prover/mod.rs:77-169 | in every run a worker has sent a prefix of what its loop sends on the messages it took |
| Refinement.EmulatorFollowsLoop | src/proving/emulator.rs:106-126 | in every run the emulator has sent a prefix of what its loop sends |
| Refinement.EmulatorChannel | src/proving/gateway/mod.rs:30-34 | the emulator's channel loses nothing and keeps its order: in any run, what the gateway received from it and what is left in it are what was sent |
| Refinement.RequestChannel | src/proving/gateway/mod.rs:41-96 | the same for the request queue, whichever workers took from it |
| Refinement.ReplyChannel | src/proving/gateway/mod.rs:54-58 | the same for the reply queue all workers append to |
| Invariants.StepKeeps | src/proving/gateway/mod.rs:29-107 | every action of every party keeps the invariant |
| Invariants.SettleTree | src/proving/gateway/handler/proof_tree.rs:135-184 | settling an answer keeps the chain on the map itself, with the pair and the flag as stated |
| Invariants.InitNodeKeeps | src/proving/gateway/handler/proof_tree.rs:124-132 | the next chunk's index is never already in the tree, and extends the chain |
| Invariants.ReactOk | src/proving/worker/prover/mod.rs:86-162 | a request that agrees with its node never panics a worker and leads to an answer for exactly that node, also after a rejected final proof, or to an embed proof of a flagged request |
| Safety.ChunksConserved | src/proving/gateway/handler/proof_tree.rs:124-184 | in every reachable state the tree holds, in key order, exactly the chunks initialised so far, and each key is among its node's chunks |
| Safety.NothingPanics | src/proving/gateway/handler/mod.rs:52-128 | in no run does any assertion, unwrap, index or unsupported message panic, in the gateway or a worker |
| Safety.FlightBijection | src/proving/gateway/handler/proof_tree.rs:127-178 | in-progress nodes correspond one to one to requests, held work, answers and accepted final combines; no index is in flight twice |
| Safety.TreeStaysShort | src/proving/gateway/handler/proof_tree.rs:142-178 | no two neighbours are both proved, and the length bound, in every reachable state |
| Safety.ExactAccounting | src/proving/gateway/handler/proof_tree.rs:124-184 | combines issued and proofs settled as exact functions of chunks initialised, tree length and nodes in progress; never more than n-1 combines |
| Safety.FlagMeans | src/proving/gateway/handler/mod.rs:111-123 | every combine carries two adjacent exact proofs; it is flagged exactly when they cover all chunks initialised by then, exactly when that is j + 2 for the j-th |
| Safety.FlaggedCoversRun | src/proving/gateway/handler/mod.rs:117 | a flagged combine covers the run exactly when all chunks were initialised, and is then the last of n-1 |
| Safety.LastRequestIsFlagged | src/proving/gateway/handler/mod.rs:111-123 | after the last initialisation exactly the (n-1)-th combine is flagged |
| Safety.InFlightProofsAreExact | src/proving/worker/prover/combine.rs:60-78 | every combine request in flight carries two adjacent proofs; every answer covers exactly its node's segment |
| Safety.OneEmbedOnly | src/proving/worker/prover/mod.rs:128-146 | at most one final proof is accepted in a run, so at most one Embed waits and one worker leaves |
| Safety.ExitDelivers | src/proving/gateway/mod.rs:66-92 | the callback fires at most once, exactly when the gateway leaves, with the stored embed proof; what it covers, and when that is the whole run |
| Safety.EmbedBeforeExit | src/proving/gateway/mod.rs:43-50 | every waiting Exit has an Embed before it, and a running gateway has nothing stored that would make it leave on EmulatorComplete |
| Liveness.RemainingFalls | src/proving/gateway/handler/proof_tree.rs:124-184 | 3 (chunks to come) + nodes + nodes in progress falls by exactly one at every init_node and set_proof |
| Liveness.MeasureFalls | src/proving/gateway/mod.rs:29-107 | every action of every party lowers one measure |
| Liveness.EveryRunEnds | src/proving/mod.rs:16-78 | no schedule of n chunks and w workers has more than 20n + 2w + 2 actions |
| Liveness.WhereRunsEnd | src/proving/gateway/mod.rs:29-107 | a run that cannot go on has delivered exactly when a final proof was accepted; otherwise one proved node covers all chunks and every flagged combine, the complete one included, was rejected |
| Liveness.DeliversWithTwoChunks | src/proving/mod.rs:55-60 | without rejections a finished run has delivered exactly when there are at least two chunks |
| Witness.PrematureDelivery | src/proving/gateway/handler/mod.rs:117 | for any n of at least 3 and any workers, a biased run that delivers an embed proof of chunks 0 and 1 only |
| Witness.RejectionStalls | src/proving/worker/prover/mod.rs:147-156 | a run with a rejected final proof that ends with the gateway waiting and nothing delivered |
| Groth16Ops.NegateIs | fixtures/Groth16Verifier.sol:92-96 | negate is the reduced additive inverse, also of unreduced input |
| Groth16Ops.SqrtFpExactly | fixtures/Groth16Verifier.sol:145-152 | sqrt_Fp succeeds exactly on reduced squares |
| Groth16Ops.InvertFpSucceeds | fixtures/Groth16Verifier.sol:130-137 | invert_Fp inverts every nonzero residue |
| Groth16Ops.SqrtFp2Checked | fixtures/Groth16Verifier.sol:177-193 | a root from sqrt_Fp2 squares to its reduced input and has nonzero real part, whatever MODEXP answers |
| Groth16Points.DecompressG1OnCurve | fixtures/Groth16Verifier.sol:230-251 | every decompressed G1 point other than infinity satisfies y² = x³ + 3 |
| Groth16Points.DecompressG2OnTwist | fixtures/Groth16Verifier.sol:321-353 | every decompressed G2 point other than infinity satisfies (9 + i)(y² - x³) = 3 in Fp[i]/(i² + 1), and y0 is not 0 |
| Groth16Points.RoundTripG1 | fixtures/Groth16Verifier.sol:202-251 | decompress_g1 inverts compress_g1, no bit lost in the shift |
| Groth16Points.RoundTripG2 | fixtures/Groth16Verifier.sol:265-353 | decompress_g2 inverts compress_g2, no bit lost in the shift |
| Groth16Points.CompressG1Accepts | fixtures/Groth16Verifier.sol:202-222 | compress_g1 accepts exactly infinity and the reduced points of the curve |
| Groth16Points.CanonicalG1 | fixtures/Groth16Verifier.sol:202-251 | what decompress_g1 accepts compresses back to the same word |
| Groth16Roots.RootFound | fixtures/Groth16Verifier.sol:288-297 | for the square of any y with nonzero real part, the hint is found and sqrt_Fp2 returns y or -y |
| Groth16Roots.HintUnique | fixtures/Groth16Verifier.sol:177-193 | sqrt_Fp2 succeeds for one hint at most, the one compression records |
| Groth16Roots.CompressG2Accepts | fixtures/Groth16Verifier.sol:265-308 | compress_g2 accepts exactly infinity and the reduced points of the twist with y0 not 0 |
| Groth16Roots.CanonicalG2 | fixtures/Groth16Verifier.sol:265-353 | what decompress_g2 accepts compresses back to the same words |
| Groth16Encoding.EncodingG1 | fixtures/Groth16Verifier.sol:202-222 | a compressed G1 point is 2 x, plus 1 exactly when y is not a square modulo P |
| Groth16Encoding.EncodingG2 | fixtures/Groth16Verifier.sol:265-308 | a compressed G2 point is x1 beside 4 x0, plus 2 exactly when the norm of y is not a square, plus 1 exactly when y0 is not |
| Bn254.ConstantsAreSound | fixtures/Groth16Verifier.sol:36-55 | the relations between P, 1/2, 27/82, 3/82, P - 2 and (P + 1)/4 hold |
| Bn254.NoPointAtZeroG1 | fixtures/Groth16Verifier.sol:231-232 | 3 is not a square, so x = 0 is on no point of G1 |
| Bn254.NoPointAtZeroG2 | fixtures/Groth16Verifier.sol:323-324 | 3/(9 + i) has no root, so x = 0 is on no point of G2 |
| Bn254.NoPointWithoutY | fixtures/Groth16Verifier.sol:244-245 | x³ + 3 has no root, so no point of G1 has y = 0 |
| Bn254.TwistPointRefused | fixtures/Groth16Verifier.sol:346-348 | a reduced point on the twist that compression refuses, its y0 being 0 |
| Bn254.G1Bijection | fixtures/Groth16Verifier.sol:202-251 | for the contract's constants, compress_g1 and decompress_g1 are inverse to each other on what either accepts |
| Bn254.G2Bijection | fixtures/Groth16Verifier.sol:265-353 | the same for compress_g2 and decompress_g2 |
| VerifyingKey.KeyOnCurve | fixtures/Groth16Verifier.sol:57-83 | alpha, the constant term and both public-input points are finite points of the curve with reduced coordinates |
| VerifyingKey.KeyOnTwist | fixtures/Groth16Verifier.sol:61-77 | -beta, -gamma and -delta, read as x0, x1, y0, y1, are finite points of the twist with reduced coordinates |
| VerifyingKey.ModuliAreBn254 | fixtures/Groth16Verifier.sol:31-36 | P and R are the two orders of the Barreto-Naehrig curve with the BN254 parameter |
| VerifierPaths.PublicInputMsm | fixtures/Groth16Verifier.sol:362-400 | the memory-based computation is the two-step sum, reverting when an input is not below R or a call fails; what the sum is, Equation.InputPointMeans says |
| VerifierPaths.CompressProof | fixtures/Groth16Verifier.sol:409-414 | the four words, or the first error |
| VerifierPaths.VerifyCompressedProof | fixtures/Groth16Verifier.sol:425-479 | the verdict on the 24 words filled in order, or the first error |
| VerifierPaths.VerifyProof | fixtures/Groth16Verifier.sol:490-538 | the verdict on the proof followed by the fixed words, by the low bit of the answer |
| Equation.InputPointMeans | fixtures/Groth16Verifier.sol:362-400 | with lawful precompiles, the computation succeeds exactly when both inputs are below R, and its point's logarithm is log CONSTANT + input[0] log PUB_0 + input[1] log PUB_1 |
| Equation.VerifyProofMeans | fixtures/Groth16Verifier.sol:481-538 | with lawful precompiles, verifyProof accepts exactly when the inputs are below R and the points satisfy the Groth16 equation for the contract's key; else which error it reverts with |
| Equation.VerifyCompressedMeans | fixtures/Groth16Verifier.sol:416-479 | verifyCompressedProof decides the same about the points its words decompress to, and refuses words that do not decompress |
| VerifierPaths.ProofRoundTrip | fixtures/Groth16Verifier.sol:409-432 | what compressProof makes of a proof decompresses to the proof's own points |
| VerifierPaths.PathsAgree | fixtures/Groth16Verifier.sol:409-538 | for every proof that compresses and every input, both paths give the same result, errors included |
| VerifierPaths.ContractPathsAgree | fixtures/Groth16Verifier.sol:409-538 | the same for the contract's constants, with no assumption about x = 0 |
| VerifierPaths.CompressProofAccepts | fixtures/Groth16Verifier.sol:402-414 | compressProof accepts exactly the proofs of valid points with y0 of B not 0 |
| ResultStore.Store.Run | src/proving_queue.rs:71-134 | the queue's loop: memory and table after any tasks and outcomes |
| ResultStore.Store.GetProvingResult | src/grpc.rs:212-237 | the answer and the emptied memory entry when nothing comes between the two steps |
| ResultStore.QueueFollowsLoop | src/proving_queue.rs:72-133 | the transition system's queue steps do what the loop does |
| ResultStore.ReadFollowsCall | src/grpc.rs:208-237 | the transition system's read steps do what the call does: one answer, from memory first and else from the table, and only the key's memory entry gone |
| ResultStore.ReadsAgree | src/grpc.rs:212-237 | a read returns the last completed proof unless it left memory and its write is pending or failed |
| ResultStore.MemoryIsLatest | src/proving_queue.rs:101-104 | a memory entry is the last completed proof, never older than the table's, and is what a reader beginning now is given |
| ResultStore.StaleReads | src/grpc.rs:212-237 | an older or missing answer needs memory emptied of the key and the write pending or failed, and is what the table last stored |
| ResultStore.AnswersAreFresh | src/grpc.rs:212-237 | under any interleaving, even between a reader's two steps, an answer from memory is the last proof completed when it was given, and one from the table is the last the table had caught up with, no older than when the reader began |
| ResultStore.StaysInMemory | src/proving_queue.rs:101-104 | a completed proof stays in memory until a reader of its key begins or a later proof of it is completed |
| ResultStore.StaleNeedsReader | src/grpc.rs:208-213 | an older or missing answer needs a reader of the key that began after the key's last completed proof |
| Gnark.DecodePrinted | src/proving/onchain.rs:129-179 | ten numbers below 2^256 printed in hex digits of either case, with any 0x, white space and outer quotes, decode to their 32-byte forms in order, and cutting the 320 bytes gives them back |
| Gnark.DecodeAccepts | src/proving/onchain.rs:129-158 | the decoder accepts exactly such texts: another count, a character that is no digit or a number of 2^256 or more panics |
| Gnark.DecodeList | src/proving/onchain.rs:129-179 | any ten numbers below 2^256 printed as a quoted list with 0x, comma and space come back as the words of the 320 bytes |
| Gnark.PrintHexValue | src/proving/onchain.rs:143-144 | every number has hexadecimal digits that stand for it |
| Words.DigestFits | src/cost_estimation.rs:73-75 | the masked digest is the hash modulo 2^253, survives 32 big-endian bytes, and is below R |
| Words.NumberRoundTrip | src/proving/onchain.rs:146-147 | a number below 2^256 survives its big-endian bytes |

## Left out

- STARK, convert, combine, compress and embed proving, key management and the virtual machine: unseen library code; a proof is a term and verification a free verdict.
- Channel disconnection: the channels live as long as the proving task, so the `Err` branches of the loops are not modelled.
- Task ids, IP addresses and `GatewayMsg::Close` handling: read by no modelled party.
- The 64-bit width of chunk indices: they are naturals.
- `COMBINE_SIZE` is taken as 2; the library that defines it is not part of this model.
- The on-chain step between exit and callback: the callback is recorded with the embed proof it is made from, or as empty when there is none.
- Timeouts and joins after the completion signal, the CUDA path, app registration, gRPC set-up, authentication and configuration.
- Cost estimation by the regression model: floating point in an unseen library.
- Elliptic-curve group law and pairing soundness: the ADD, MUL and PAIRING precompiles are uninterpreted, except in `Equation`, where that they compute in the groups of the curve is the hypothesis `Lawful`. That the key's G2 points lie in the subgroup of order R is a condition there, not proved.
- Primality of P: Fermat's little theorem for P is a hypothesis wherever it is used.
- Gas and memory layout beyond the words passed to precompiles.
- `U256::from_str_radix` is library code; it is taken to read base-16 digits in either case, no digits as zero, and to fail on any other character and on overflow.
- Gnark.Decode: how that library treats underscores is not modelled.
- sha256: the digest is proved to fit for every 32-byte hash and more.
- Database errors while reading a result, which answer with an error and change nothing.
