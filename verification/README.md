# OZcoin verification model

OZcoin is a blockchain client whose payments hide sender, receiver and amount. This
project models its core in Dafny and proves what the design relies on, in three parts.

**The confidential-transaction core.** Pedersen commitments, bitwise Borromean range
proofs, the one-time zero-sum ring signature, and outputs that only their receiver
recognises and can spend. Everything is proved for every ring size and every bit length
up to 64; `HonestChain.DeployedPaymentVerifies` restates the main result for the
deployed eight inputs and 34 bits.

**The chain.** A client is a class whose fields are the persistent tables. Blocks
extend the main chain, are put aside, or trigger a reorganisation; proof of work,
retargeting and the subsidy are proved as arithmetic.

**The token protocol.** The dispatch loop, its start and done channels and its worker
goroutines, as interleaved steps.

## Reading order

- `Arithmetic`, `Bytes`, `Curve`, `Primitives`: remainders and powers of two, big-endian
  integers, the group, the records. `Tables`: tables as finite maps and batches as
  ordered puts and deletes.
- `RangeProofs`, `Outputs`, `RingSignature`, `Balance`, `RangeBinding`: each loop of the signer and of
  the verifier is a method proved equal to a specification function, and the properties
  are lemmas about these functions. `Binding` says what follows from acceptance alone.
- `Transactions`, `HonestChain`, `Subsidy`: building and verifying transactions, and
  conservation of value over whole chains.
- `BlockTree`, `Forks`, `Validation`, `Client`: the stored blocks as a tree, what the
  tables answer along its paths, the validation rules, and the state machine. The
  predicate `Client.Client.Valid` holds after the constructor and after every request a
  client serves (`Client.Client.Run`), so it holds in every reachable state; the one
  exception, a first block adopted again, is in `Client.Client.AdoptFirstAgain`. The lemmas
  at the end of the class say what it means. `Acceptance` joins this to the first part.
- `ProofOfWork`, `Difficulty`, `TokenProtocol`.

## How things are represented

- The group is the pairs of residues modulo the order of P-256, read as coordinates over
  two independent generators G and H, so that its laws are proved. The code computes H
  as 11235 times G (`commitment.go:33-40`), over which every difference is a multiple
  of G and every commitment opens to every amount (`Curve.CodeDifferences`,
  `Curve.CodeCommitOpensToAnything`); the balance results are about the intended setting. The
  hash to a point is the code's: the base point times a hash.
- SHA-256 and the encodings are arbitrary functions carried by a `Suite`, none of them assumed
  injective. The results in `Binding` name the two byte strings that would collide; those that
  recover points from bytes say that points are encoded one to one and in one length
  (`Binding.EncodesPoints`), which the code's encoding, without leading zeros (`eccpoint.go:12-18`),
  does not quite give. Where another result needs that hashes do not collide it says so
  for the blocks or outputs concerned: `headerOf` in `Client` (one header to a hash
  among the blocks a client is given), `Acceptance.HashesTell` (one output to a hash on a chain),
  `Validation.Separate` (no output on a chain with the hash of an image spent there).
- Randomness is passed in as arguments. Scalars are naturals, as in the code, which
  does not always reduce them. 64-bit sums wrap where the code's do: fees, coinbases and
  difficulty totals.
- What is on disk is what is in the tables: a table is a finite map, a batch takes
  effect in the order it was filled, and absence is an answer, as the comments in
  `db.go:64-66` intend, not an error.
- Block size and missing-field checks are one arbitrary predicate on blocks
  (`Env.admissible`); the clock, peers' answers and the float in retargeting are in the same
  record. A peer's answer may be anything: the client checks its hash, as the code does in
  `gossip.go:187-212` and `gossip.go:277-298`. The root of a block's transactions is an arbitrary
  function, computed by the miner and checked by every client. Times are in seconds.
- Ghost state of a client: the path to every stored block (`tree`), the target suggested
  for each, the blocks stored without validation (`unchecked`), and whether a reorganisation
  has happened yet.
- A client is literal or `guarded`. A guarded one makes two checks the code leaves out: a block
  for a side path must not repeat an image collected along that path, and a block that becomes
  the tip by a reorganisation is validated like any other. What holds of either is stated for
  either.

## Where the model departs from the text of the code

- `output.go:94-98` adds 2^i when the first key matches, which means the bit is clear.
  `DecryptAmount` takes a flag; the repaired test recovers the amount and the literal one
  the complement, and `Outputs.ComplementDiffers` says the two never agree.
- `rangeproof.go:103-118` makes every blind but the last the hash of the same or of an empty
  byte string, unlike the paper's chain of hashes. The code's version is kept.
- The side-table getters unmarshal into nil (`db.go:117`, `db.go:225`), so reading
  a side header always fails. `GetSideHeader` takes a flag that says what the bytes
  are unmarshalled into; as written `FindForkPaths` and so `ExtendSideChain` then fail and change
  nothing, whatever the block; repaired, `ExtendSideChain` chooses the fork.
- `FindForkPaths` never advances (`consensus.go:400-441`) and lists the fork point but not
  the new block. Repaired: both walks advance, and the lists run from the top to just
  above the fork. Since the new block's path is then known before it is stored, it is stored
  aside first and moved with the rest of its path; validation of a block that stays aside is
  given the stored part of the side path.
- `SwapMainFork` reads side headers and blocks from the main tables (`consensus.go:239`,
  `consensus.go:298`), writes the header batch to the side headers (`consensus.go:258`)
  and treats the coinbase as having a spent image. Repaired: the side tables, the other
  batch, and the guard of `block.go:271`.
- `chain.go:50-55` ends the walk down a side chain after one header.
  `SideChainTotalDifficulty` takes a flag and its contract gives both results.
- `consensus.go:118` tests for an error where it needs the absence of one. Repaired; the
  panic after it is then unreachable, which is proved.
- `chain.go:131-141` asks the side table for a block only when the main table answers
  without an error. Repaired as for the getters.
- A hash can become known between the filter at the dispatch loop (`client.go:127`) and
  the worker's turn. `AddOrOrphan` filters again when it holds the token, since storing a
  main-chain block a second time puts it on both sides (`Forks.AsideTwice`).
- The miner stores the genesis block without its header (`miner.go:37-46`), so its hash is not
  filtered. Adopting it again makes it the last header below a chain that is still stored
  (`Client.Client.AdoptFirstAgain`). The constructor enters the header, and blocks that peers
  announce are assumed not to be a second genesis block.
- `NthAncestorHeader` and `FilterBlock` take the same flag for the getters they use, and the
  other methods call them repaired; `LoadBlock` and `ForkTxnsAndPreimages` read side and orphan
  blocks with the repaired getters only.
- `ForkTxnsAndPreimages` takes the bytes of every transaction's image, and a locally built coinbase
  has none (`chain.go:145`, `txn.go:132-135`), so the code stops there. The model gives a
  coinbase the identity as its image.
- `FindOutput` answers nil without an error when no peer has the output (`output.go:223-227`), and
  `VerifyTxn` goes on to dereference it. The model rejects the transaction.
- `RangeProof.Verify` never compares the proof with the commitment (`rangeproof.go:85-97`). This is
  kept; what it lets through, and the guard that would not, are in `RangeBinding`.
- `VerifyTxns` compares a block's images with those of earlier blocks only
  (`txn.go:308-325`). This is kept; what it lets through is in `HonestChain` and `Acceptance`.
- `VerifyTxns` collects the images along the side path and never reads them (`txn.go:302-306`,
  `txn.go:349-361`), and a block that triggers a reorganisation is not validated
  (`consensus.go:203-210`). A literal client keeps both; `Client.Client.RepeatBesideMain` and
  `Client.Client.HeavyBlockUnchecked` are inputs on which images repeat, and the exact conditions
  are `Validation.SideBlockSpendsNewIff`, `Validation.SwapImagesExact` and
  `Validation.SwapIndexExact`.
- Nothing checks that blocks are numbered by depth (`block.go:29-43`, `chain.go:59-97`). This is
  kept: `Acceptance.MisnumberedAccepted` is an input, `Subsidy.UnnumberedClaims` what such chains
  may claim.

## Model

| member | source | states |
|---|---|---|
| RangeProofs.ComputeBlinds | rangeproof.go:99-125 | The loop returns the specified blinds, one per bit, the last of them what is missing to the target modulo the order |
| RangeProofs.BlindsSum | rangeproof.go:99-125 | For every target and bit length the derived blinds add up to the target modulo the order |
| RangeProofs.BlindAt | rangeproof.go:99-125 | The blinds one by one: the first is the hash of the target, every later one but the last that of the empty string, and the last is what is missing |
| RangeProofs.OpenKey | rangeproof.go:127-144 | A clear bit's first key and a set bit's second key are blind times G, the one the signer can answer for |
| RangeProofs.MaskedAmountIsRemainder | rangeproof.go:128-132 | The powers of two selected by the bits of an amount add up to the amount modulo 2^bits |
| RangeProofs.RangeCommit | commitment.go:18-31 | The accumulated commitment is the sum of the first keys, with the signer's range proof |
| RangeProofs.CommitIsPedersen | commitment.go:18-31 | For every amount and blind, in range or not, the commitment is blind times G plus (amount mod 2^bits) times H |
| RangeProofs.RangeSign | rangeproof.go:27-83 | The signer's three loops produce the specified proof |
| RangeProofs.Verify | rangeproof.go:85-97 | The verifier's loop accepts exactly when the shared challenge is the hash of the points it recomputes; `Binding.VerifiesMeansPoints` and the rows after it say what that gives |
| RangeProofs.BitCloses | rangeproof.go:45-58 | For set and clear bits alike, the verifier reaches the very point the signer put into the shared challenge |
| RangeProofs.RangeSignVerifies | rangeproof.go:27-97 | Every proof the signer makes verifies, for all amounts (also beyond the range), blinds and nonces |
| Binding.VerifiesMeansPoints | rangeproof.go:85-97 | A proof is accepted if and only if its challenge is the hash of its keys' hash and of the points that its answers lead to bit by bit, each written out |
| Binding.KeysBound | rangeproof.go:17-25 | Two accepted proofs with one challenge have the same keys, or two explicit byte strings collide |
| Binding.SecondAnswerBound | rangeproof.go:85-97 | Accepted with the same keys, challenge and first answer at a bit, two proofs have the same second answer there modulo the order, or give a collision |
| Binding.SecondKeyOpens | rangeproof.go:146-153 | Accepted with the same keys and challenge, two proofs whose second challenges at a bit differ by something invertible open that bit's second key, or give a collision |
| Binding.FirstAnswerBound | rangeproof.go:146-153 | One second challenge reached from first answers that differ modulo the order gives a collision |
| Outputs.BuildOutputs | txn.go:149-190 | The loop builds the specified outputs in order and returns the sum of their blinding factors modulo the order |
| Outputs.DestKeyRecovered | output.go:137-161 | An output sent to an address is recognised by its tracking key, and the private key computed for it is the logarithm of its destination key |
| Outputs.BelongsMeansSpendable | output.go:137-161 | For every output and generated key: it belongs to the key if and only if the private key computed for it gives its destination key |
| Outputs.DestKeysDiffer | txn.go:149-190 | Two destination keys of one address are equal if and only if the hashes of what is shared are, modulo the order |
| Outputs.BlindRecovered | output.go:118-132 | The owner computes exactly the sender's blinding factor if and only if the seed's scalar is not 0 modulo the order, or that factor is itself 0 |
| Outputs.SentBlindIsShared | output.go:118-132 | The sender's blinding factor is the hash of what the seed and the receiver's spending key share |
| Outputs.SentOutputOwned | txn.go:149-190 | Every output built for an address with a nonzero seed is owned: recognised, with the key and the opening the owner computes |
| Outputs.DecryptAmount | output.go:84-112 | The nested loops return the sum of the recovered bits, or an error as soon as no key of a pair matches; repaired and literal bit test |
| Outputs.OneKeyOpens | output.go:88-105 | On an honest pair exactly one of the two keys matches, since 2^i times H is never the identity |
| Outputs.MiddleBitsArePublic | rangeproof.go:99-125 | As the blinds are derived, the hash of the empty string tells every bit of an honest commitment but the first and the last |
| Outputs.DecryptInvertsCommit | output.go:84-112 | On a commitment to any amount decryption with the right blind never fails and returns the amount modulo 2^bits, so the amount itself when in range |
| Outputs.DecryptAsWrittenComplements | output.go:94-98 | The literal bit test returns 2^bits - 1 - (amount mod 2^bits) |
| Outputs.ComplementDiffers | output.go:94-98 | That is never the amount committed to |
| RingSignature.CommitDifferences | ozrs.go:166-192 | The loops compute every input commitment less the outputs' and the fee's |
| RingSignature.OZRSSign | ozrs.go:25-85 | The wrap-around loop and the final answers produce the specified signature |
| RingSignature.VerifyOZRS | ozrs.go:90-115 | The verifier's loop accepts exactly when the challenge it comes back to is the one it started from; `Binding.AcceptsMeansARound` and the rows after it say what that gives |
| RingSignature.ForwardSplit | ozrs.go:61-66 | Walking the ring in two stretches is walking it in one, wrap-around included |
| RingSignature.ClosedEverywhere | ozrs.go:104-114 | A ring that closes from one index closes from every index |
| RingSignature.OwnLinkCloses | ozrs.go:76-78 | The signer's two answers at its own index reproduce the opening hash of its nonces |
| RingSignature.SignatureCloses | ozrs.go:25-115 | For every ring size, index, message, nonces and decoy answers, the verifier's challenges equal the signer's at every index, and the ring closes |
| RingSignature.SignedBodyAccepts | ozrs.go:25-115 | So the signature is accepted whenever the signer's key and the multiplier of its difference are the right ones |
| Binding.AcceptsMeansARound | ozrs.go:90-139 | A signature is accepted if and only if a round of challenges starts and ends at its own, each the hash of the message and of the three points of its link |
| Binding.BodyBound | ozrs.go:133-139 | A signature accepted with two bodies, whatever the keys and commitments, gives a collision of explicit byte strings, unless both bodies are encoded alike |
| Binding.LastPointsBound | ozrs.go:120-139 | Two signatures accepted with one challenge have the same three points in their last link, or give a collision |
| Binding.OneImage | txn.go:462-469 | A key has one image, whichever logarithm of it the image is built from, so a second spend cannot have another |
| Balance.ZeroSumMeansBalance | ozrs.go:71-78 | The difference at an opened input is a multiple of G alone if and only if its amount is the outputs' plus the fee modulo the order; the multiplier is then yi - yOut |
| Balance.BalanceOfIntegers | ozrs.go:166-192 | For word-sized amounts that is equality of the integers |
| Balance.Extraction | ozrs.go:120-160 | Two answers giving the same three points, under challenges whose differences have inverses modulo the order, give z with D = zG and one x behind both key and image, each computed from the answers and the inverse |
| Balance.DistinctInverts | whitepaper/zerosum.tex:385-398 | The order being prime, a difference of challenges has an inverse if and only if they are distinct modulo it |
| Binding.AcceptedTwiceExtracts | ozrs.go:90-160 | From acceptance to extraction: one body accepted twice with one first challenge and image, under last challenges whose differences have inverses, gives away the multiplier of the last difference and the one secret behind its key and the image, or a collision |
| Balance.ExtractedSpendBalances | whitepaper/zerosum.tex:385-398 | A spender from whom two such answers can be had spends its amount modulo the order; as integers it is what the outputs and the fee hold if and only if these stay below the order |
| RangeBinding.OverdraftAccepted | rangeproof.go:85-97 | They need not stay below it: outputs of ORDER - 1 and v + 1, each with the range proof of 0, pass signature and range proofs on any input of v |
| RangeBinding.SignersTie | commitment.go:18-31 | What signers make is tied: first keys add up to the commitment, second keys are the first less the value of the bit |
| RangeBinding.LinkOpens | rangeproof.go:146-153 | Two answers to one link of a range proof, under challenges with an invertible difference, open its key |
| RangeBinding.TiedIsInRange | rangeproof.go:99-144 | A tied commitment all of whose bits open holds an amount below 2^bits, the one the opened keys spell, and no other below the order |
| RangeBinding.GuardedSpendBalances | txn.go:400-404 | With proofs tied to commitments, an extracted spend has outputs in range and balances as integers |
| Curve.CodeDifferences | commitment.go:33-40 | With the second generator as the code computes it, every difference of commitments is a multiple of G, balanced or not |
| Curve.CodeCommitOpensToAnything | commitment.go:33-40 | And every commitment opens to every amount |
| Transactions.NewTxn | txn.go:45-83 | The loops build the specified transaction; an index outside the ring gives none |
| Transactions.HonestDifference | ozrs.go:71-78 | For an owned input that balances, the difference at its index is the signer's multiplier times G |
| Transactions.HonestSpendVerifies | txn.go:45-83 | An owned input whose value is the outputs' plus the fee can be spent at any ring index: the signature is accepted and every range proof verifies |
| Transactions.CoinbaseVerifies | txn.go:412-423 | A coinbase passes for an amount if and only if that is its subsidy plus fees as a 64-bit word |
| Transactions.CoinbaseOwned | txn.go:89-143 | A coinbase output is owned by its address, with blinding factor 0 |
| HonestChain.PaymentVerifies | txn.go:45-190 | Every payment from an owned note passes, with the keys its owner recovers from the output |
| HonestChain.DeployedPaymentVerifies | rangeproof.go:9 | The same with the deployed sizes: eight inputs, amounts below 17179869184 |
| HonestChain.CreatedOwned | txn.go:149-190 | What a payment creates is owned by its recipients, so it can be spent in turn |
| HonestChain.BlockAccounts | txn.go:308-325 | The exact books of a block of accepted payments whose subsidy and fees fit a word: unspent value grows by the subsidy and by the value of every note spent again within the block |
| HonestChain.DoubleSpendInflates | txn.go:308-325 | Two payments in one block that spend one note create its value out of nothing |
| HonestChain.ConservesIffNothingTwice | txn.go:308-325 | A block of payments that each pass, with subsidy and fees that fit a word, conserves value if and only if no two of them spend one note of nonzero value |
| HonestChain.CoinbaseSpentTwice | txn.go:308-325 | A concrete input: the second block pays the first coinbase out twice, both payments pass, and a subsidy more than was issued is unspent |
| HonestChain.FeesFit | block.go:109-113 | On a sound ledger subsidy and fees never wrap 64 bits |
| HonestChain.RunConserves | block.go:105-138 | After every chain of honest blocks with distinct images per block all notes are owned and the unspent value is exactly the sum of the subsidies |
| HonestChain.RunVerifies | txn.go:288-328 | In the next block of any such chain every payment and the coinbase verify |
| Acceptance.PaymentForm | txn.go:350-361 | A payment spends the image of its note and names the outputs of its ring by hash |
| Acceptance.PaymentAcceptable | txn.go:333-407 | A payment from an owned, unspent note is accepted by every client whose main chain holds the notes |
| Acceptance.HonestBlockAccepted | txn.go:288-328 | So is every block a miner builds from such payments, coinbase included, whether or not two of them spend one note |
| Acceptance.ClientAccepts | block.go:194-206 | In every reachable state with exact tables, the transaction checks of the client pass such a block |
| Acceptance.MirrorsExtends | consensus.go:129-160 | A chain that holds the ledger's notes, and has spent images only of its spent ones, still does once both are extended by the same honest block |
| Acceptance.RunMirrors | block.go:105-138 | So every chain of honest blocks mirrors the ledger of its payments, from the genesis block on |
| Acceptance.NextAccepted | miner.go:72-88 | Whatever its nonce, the block the client drafts on a chain that mirrors a ledger passes every check but that of its work |
| Acceptance.MineNext | miner.go:72-88 | End to end: a client whose main chain is such a run holds exactly the issued value unspent; the block it builds becomes its tip if and only if the nonce gives the proof of work; and without a double spend the chain is such a run again |
| Acceptance.DoubleSpendAccepted | txn.go:288-328 | A concrete input on which conservation fails: the transaction checks of every client that holds one honest first block pass a second that pays its coinbase out twice |
| Acceptance.MineDoubleSpend | block.go:105-138 | End to end: the client itself builds such a block from its pool, and makes it its tip if and only if the nonce gives the proof of work |
| Acceptance.MisnumberedAccepted | block.go:29-43 | An input: at any height an honest-shaped block numbered 1 with difficulty 16 passes validation, and claims the first subsidy |
| Acceptance.OverdraftAcceptable | txn.go:333-407 | A concrete input on which balance fails: from any usable ring with an unspent member that opens to v, outputs of ORDER - 1 and v + 1 are accepted |
| Subsidy.EmissionCap | chain.go:8-10 | An emission from v that halves every 21000 blocks stays at or below 21000(2v - ones in v), and reaches it exactly when as many eras have passed as v has bits |
| Subsidy.SupplyCap | chain.go:8-10 | The supply is at most 21000(2*5000000000 - 11), with equality exactly from block 693000 on |
| Subsidy.NumberedClaims | chain.go:8-10 | A chain numbered by depth claims exactly what the schedule issues, so it keeps to the cap |
| Subsidy.UnnumberedClaims | chain.go:8-10 | A chain of blocks all numbered 1 claims the full subsidy in each and is past the cap after 42000 |
| ProofOfWork.ValidPoW | block.go:48-76 | The byte and bit scan accepts if and only if the difficulty is below 256 and the big-endian hash is below 2^(256 - difficulty); it indexes outside the hash if and only if the difficulty is at least 256 and the hash is zero |
| ProofOfWork.BoundMeansLeadingZeros | block.go:48-76 | Being below the bound is having that many leading zero bits |
| Difficulty.Retarget | chain.go:72-93 | Of all targets within one of the old one, the new target is the nearest to the suggestion; only the largest word wraps, to 0 |
| Difficulty.ClampedIsNearest | chain.go:79-91 | The same of what is expected of a block: within one of the old target, and nearer to the suggestion than any other such |
| Difficulty.DifficultyDrift | chain.go:59-97 | With blocks numbered by depth, whatever the timestamps, the difficulty at height h is within (h-1) div 2016 of 16, hence at most 255 through height 483840 |
| Difficulty.DriftWhateverNumbers | chain.go:59-97 | However the blocks are numbered, it is within h div 2016 of 16 |
| Difficulty.DriftIsAttained | chain.go:59-97 | Suggestions that are always high reach the bound, and 256 at height 483841 |
| Difficulty.DriftFalls | chain.go:79-84 | Suggestions of 0 take height h to 16 less (h-1) div 2016, and to 0 from height 32257 on |
| Difficulty.ClimbingIsValid | chain.go:59-97 | Such a chain exists at every length, and its block 483841 has difficulty 256 |
| Difficulty.FallingIsValid | chain.go:59-97 | Such a falling chain exists at every length |
| Tables.RemoveTail | consensus.go:267-287 | Removing a tail of a chain restores the table of the rest if and only if the two share no key |
| Tables.SwapTail | consensus.go:217-366 | Removals before additions, both from the tip down, leave exactly the table built from scratch over the new chain, even when the tails share keys |
| Tables.SwapExact | consensus.go:217-366 | For any table: the swap rebuilds it exactly if and only if no key that the rest and the outgoing tail share is lost, and the incoming tail leaves the same table from either end |
| Tables.SwapSplit | consensus.go:217-366 | Main and side tables stay a partition of the same entries under the swap |
| Tables.SwapBackRestores | consensus.go:217-366 | Swapping to another tail and back restores the table |
| Forks.Lookup | chain.go:12-57 | At any height of any stored path, the main table answers exactly for the part shared with the main chain and the side table for the rest |
| Forks.ExtendedPartitioned | consensus.go:129-160 | Extending the main chain keeps the tables a partition of the stored blocks along the main chain |
| Forks.AsidePartitioned | consensus.go:186-203 | So does storing a block aside |
| Forks.SwappedPartitioned | consensus.go:217-366 | So does a reorganisation, for the new main chain |
| Forks.SwappedBack | consensus.go:217-366 | Reorganising to another path and back restores all header and block tables |
| Forks.AsideTwice | consensus.go:186-203 | Putting a worked block aside on a stored parent keeps the partition if and only if it is not on the main chain |
| Validation.LoadOutputAt | output.go:177-203 | With nothing assumed: looking any hash up succeeds exactly when the last main-chain block that records it, as image or output, holds an output with it, and returns such an output |
| Validation.LoadOutputExact | output.go:177-203 | If no output on the main chain has the hash of an image spent there, looking any hash up succeeds exactly for the outputs of its blocks, returns such an output, and fails for every spent image |
| Validation.EntriesAre | block.go:256-304 | What a block enters: its images are those of its transactions but the coinbase, each one of them, and the map has these and every output, under the block's hash |
| Validation.SpentOnChain | db.go:287-304 | An image counts as spent if and only if a main-chain block spends it |
| Validation.DisjointMeansOnce | txn.go:350-361 | If no two blocks of a chain share an image entry, no transaction above a coinbase has the image of one in another block |
| Validation.ForkOutputsAre | chain.go:123-158 | What is collected along a path is exactly the outputs of its blocks |
| Validation.ForkImagesAre | chain.go:123-158 | And exactly the images of all their transactions |
| Validation.AcceptedSpendsNew | txn.go:350-361 | A block whose transactions are accepted spends no image an earlier block has spent |
| Validation.SideInputsBelowFork | txn.go:371-384 | Every input accepted for a side block has the hash that names it and is an output below the fork, or else its hash is that of an image spent on the main chain |
| Validation.NewBlockCoinbase | txn.go:308-325 | The coinbase a miner computes is the one every verifier asks for, also when fees wrap |
| Validation.CoinbaseOpens | txn.go:412-423 | The coinbase check passes if and only if the first output's commitment is the amount times H, with blinding factor 0 |
| Validation.DueIsSubsidyAndFees | txn.go:308-325 | What a coinbase is due is the subsidy and the sum of all fees, as a 64-bit word |
| Validation.AcceptedTxnMeans | txn.go:333-407 | What acceptance gives: outputs with the hashes the transaction names, on the main chain below the fork unless a name is a spent image's, for whose keys and commitments the signature is accepted; accepted range proofs; an image that is not entered as spent and that no block above the fork has |
| Validation.AcceptedIsBacked | txn.go:288-407 | What stays of that wherever the block ends up: a ring for every payment, its range proofs, and a coinbase that opens to subsidy and fees |
| Validation.SwapRecords | consensus.go:267-351 | The map to blocks and the spent images are rebuilt exactly by a swap, if no chain repeats an image or output |
| Validation.SideBlockSpendsNewIff | txn.go:349-361 | A block accepted for a side path repeats no image of that path if and only if it repeats none of the blocks above the fork, the check that is computed and not made |
| Validation.SwapImagesExact | consensus.go:267-309 | A reorganisation rebuilds the spent images exactly if and only if every image that the rest and the outgoing tail share is in the incoming tail |
| Validation.SwapIndexExact | consensus.go:324-351 | It rebuilds the map to blocks exactly if and only if that holds of its keys and no two blocks of the incoming tail record one key |
| Client.Client.constructor | miner.go:37-46 | A client that has stored the genesis block, and here also its header, is in a valid state |
| Client.Client.MainChainTotalDifficulty | chain.go:12-28 | The walk down from the last header adds up the difficulty of the whole main chain, as a 64-bit word |
| Client.Client.SideChainTotalDifficulty | chain.go:30-57 | Repaired: the difficulty of the whole path; as written, that of its last header unless this is on the main chain; 0 for an unknown block |
| Client.Client.NthAncestorHeader | chain.go:99-121 | The n-th header down the path, through side and main tables, or an error if the block is unknown or the path shorter; as written, only for blocks on the main chain |
| Client.Client.ComputeDifficulty | chain.go:59-93 | The difficulty due at the block's place in its chain, as the next row describes it; with an unknown parent, by its number alone |
| Client.Client.DueIsNearest | chain.go:59-93 | A block numbered 2016 or less is due 16; any other what is nearest to the suggestion of its time and the ancestor 2016 before it, of all that differ by at most one from that ancestor's; without such an ancestor 2^63 |
| Client.Client.LoadOutput | output.go:177-203 | The nested search returns the first output with the hash in the block the map names |
| Client.Client.FetchOutput | gossip.go:277-298 | A peer's answer counts only if it has the hash asked for |
| Client.Client.FetchBlock | gossip.go:187-212 | A peer's answer counts only if it has the hash asked for and the root of its own transactions |
| Client.Client.ForkTxnsAndPreimages | chain.go:123-158 | Exactly the outputs and images of the blocks on a path, or an error if one is not stored |
| Client.Client.VerifyTxn | txn.go:333-407 | Accepts if and only if the image is unspent, every input is found, recorded and below the fork, the signature is accepted and every range proof verifies |
| Client.Client.VerifyTxns | txn.go:288-328 | Accepts if and only if all transactions are and the coinbase holds subsidy plus fees, and, for a guarded client, no image is among those of the side path |
| Client.Client.PostValidBlock | block.go:194-206 | Accepts if and only if the difficulty is the expected one and the transactions verify |
| Client.Client.NewBlock | block.go:105-138 | A coinbase that takes the wrapped sum of the pool's fees, then the pool, with the root of these transactions and exactly the difficulty that is due |
| Client.Client.PutMapToBlock | db.go:342-362 | The batch enters the keys that `Validation.EntriesAre` lists, every image but the coinbase's and every output, under the block's hash |
| Client.Client.DeleteMapToBlock | db.go:364-381 | The batch removes exactly those keys and leaves the others |
| Client.Client.WriteBlock | block.go:256-304 | Block, images and map entries are written and nothing else |
| Client.Client.ExtendMainChain | consensus.go:129-160 | Succeeds if and only if the block is post-valid; then all tables are the old ones with this block on top, and otherwise nothing changes; the invariant is kept |
| Client.Client.GetSideHeader | db.go:107-125 | As written every read fails, since the bytes are unmarshalled into nil; repaired, exactly the stored headers are read |
| Client.Client.FindForkPaths | consensus.go:392-441 | The two lists are the hashes above the fork on the main chain and on the new block's path, from the top down; as written the first read of a side header fails |
| Client.Client.SwapMainFork | consensus.go:217-366 | All six tables after the batches; they are a partition for the new main chain, and each index is rebuilt exactly if no stored path repeats a key of it |
| Client.Client.ExtendSideChain | consensus.go:166-212 | A path at least as heavy as the main chain, both as 64-bit words, becomes it, ties included, with a guarded client if and only if its block is acceptable; a lighter one is stored if and only if its block is; as written it always fails and changes nothing |
| Client.Client.ValidHeader | block.go:29-43 | True if and only if the proof of work holds, the time is not over two hours old and a block numbered 0 has no parent; the index panic is an error |
| Client.Client.AddOrOrphanHelper | consensus.go:51-124 | The outcome for every hash that is not stored: an error and no change if no block is had; false and no change if it fails a check; on the tip and beside it, adopted if and only if it is acceptable there; a block left out waiting for a parent cannot be placed in the state reached, or is an orphan; and the last of its missing ancestors that can be put on the tip is stored. The invariant holds and stored paths stay |
| Client.Client.AddOrOrphan | consensus.go:17-39 | The same for a request, under the token; known hashes are left alone, and the main chain's total difficulty does not decrease |
| Client.Client.AdoptOnTip | consensus.go:69-72 | An announced block on the tip, new and passing the checks of its own, becomes the tip if and only if its difficulty is the one due and its transactions are acceptable; otherwise nothing changes |
| Client.Client.AdoptBeside | consensus.go:74-84 | Beside the tip it is stored if and only if it is acceptable on its path or, with a literal client, heavy enough |
| Client.Client.AdoptWithParent | consensus.go:86-124 | If its missing parent can be put on the tip, the parent is stored, and the block too unless it cannot be placed in the state reached |
| Client.Client.AdoptWithoutParent | consensus.go:86-108 | If its missing parent fails the checks, the block becomes an orphan and no block is stored |
| Client.Client.ChainLeads | consensus.go:86-91 | Every run of missing blocks that ends on the tip, no longer than the depth, leads to its first block |
| Client.Client.FilterBlock | client.go:255-268 | Known are exactly the hashes in the three header tables; as written, only those in the first |
| Client.Client.AdoptFirstAgain | client.go:209-250 | What the code does with a first block once it has one: it becomes the last header, and the tables are a partition for it if and only if it is the genesis block and nothing stands on that |
| Client.Client.AdoptMinedBlock | client.go:209-250 | Succeeds if and only if the block stands on the tip, or claims to start a chain, and passes every check; on the tip it keeps the invariant, and failure changes nothing |
| Client.Client.Run | client.go:105-172 | Over any sequence of requests the invariant holds, nothing stored is lost and the total difficulty does not decrease |
| Client.Client.MainIsLinked | consensus.go:157 | In every reachable state the last header ends one hash-linked chain to the genesis block, each link with its proof of work |
| Client.Client.MainIsHeaviest | consensus.go:186-208 | In every reachable state no stored path outweighs the main chain |
| Client.Client.SpentOnce | txn.go:350-361 | No two payments in different main-chain blocks have one image, as points or as hashes: before any reorganisation, and in every reachable state of a guarded client |
| Client.Client.SpentAgrees | db.go:287-304 | An image is entered as spent if and only if a main-chain payment has it: before any reorganisation, in every reachable state of a guarded client, and in any state where no stored path spends an image twice |
| Client.Client.RecordsAgree | db.go:324-362 | The same for output lookups and every hash, before any reorganisation or while no stored path repeats a key: lookups return outputs on the main chain, and if no output on it has the hash of an image spent there they succeed exactly for its outputs and fail for its images |
| Client.Client.MainDrift | chain.go:59-97 | As long as every main-chain block had the difficulty due, it is within h div 2016 of the first, and numbered by depth within (h-1) div 2016 |
| Client.Client.MainIsChecked | consensus.go:129-135 | Every main-chain block had the difficulty due: before any reorganisation, and in every reachable state of a guarded client |
| Client.Client.MainIsBacked | block.go:172-206 | In every reachable state every main-chain block above the first has the root of its transactions and payments of the right form; and each payment of a block that was not stored unchecked has a ring of outputs with the hashes it names for which its signature is accepted, and accepted range proofs |
| Client.Client.CoinbaseIsDue | txn.go:412-423 | The coinbase of every such block opens to its subsidy and the sum of its fees, as a 64-bit word |
| Client.Client.HeavyBlockUnchecked | consensus.go:203-210 | An input: in a literal client a heavy enough block becomes the tip with a repeated image, a false coinbase and a wrong difficulty |
| Client.Client.RepeatBesideMain | txn.go:349-361 | An input: a literal client accepts two blocks with the same transactions, one on the other, beside its main chain |
| TokenProtocol.AlwaysExclusive | client.go:105-172 | In every interleaving one token is pending or held, and the tables are those of whole workers in token order plus the holder's steps so far |
| TokenProtocol.Atomic | consensus.go:17-39 | From the start: tokens and active workers add up to one, and with no worker active the tables are those of whole workers in turn |
| TokenProtocol.NoDeadlock | client.go:117-168 | While a worker is unfinished some step other than an arrival can be taken |
| TokenProtocol.DrainsExactly | client.go:117-168 | Without arrivals all workers are done after exactly as many steps as are left, however they interleave, and not before |
| TokenProtocol.CanDrain | client.go:117-168 | From every reachable state the workers can be drained |
| TokenProtocol.EveryArrivalServed | client.go:117-168 | A drained client has run everything that was submitted, and everything announced that was neither recorded nor being resolved, each whole and exactly once |
| TokenProtocol.AnnouncedIsServed | client.go:118-134 | From an exact frontier, a hash announced and not recorded is resolved by some worker, or still waits for one, after any further run |
| TokenProtocol.FinishExact | client.go:163-167 | Finishing keeps the frontier exactly the unfinished hashes if and only if no waiting worker has the same hash |
| TokenProtocol.FrontierStaysExact | client.go:117-168 | If what the client submits itself is not on the frontier, the frontier is exactly the unfinished hashes, over any run |
| TokenProtocol.FrontierFromStart | client.go:105-168 | The same from the initial state |
| TokenProtocol.SubmitIsSafeIffFresh | client.go:153-161 | From an exact frontier, what the client submits itself keeps it exact, however the workers go on, if and only if its hash is not on it |
| TokenProtocol.SubmittedTwice | client.go:153-161 | A concrete input: whatever its work is, a job submitted twice to an idle client leads to an inexact frontier |

## Left out

- Curve and hash internals: the group is its coordinates, hashing an arbitrary function.
- Balance.DistinctInverts: takes as a hypothesis that the order of P-256 is prime, a published fact; the extraction results need only the inverses.
- Unforgeability, anonymity and random-oracle arguments: the algebraic facts they rest on are proved.
- Client.Client.AddOrOrphanHelper: recursion into missing ancestors is cut off after a given depth, as the stack would, where the code has no bound of its own; a second genesis block, which the code would put on the tip, is excluded by a condition on peers' answers.
- Client.Client.constructor: enters the header of the genesis block, which the miner does not.
- Client.Client.AddOrOrphan: filters a second time, under the token.
- Client.Client.RecordsAgree: after a reorganisation a literal client can repeat images and any client can repeat outputs, so that lookups need the condition of `Validation.SwapIndexExact`; the state condition here is sufficient for it.
- Client.Client.ForkTxnsAndPreimages: gives a locally built coinbase the identity as its image, where the code takes the bytes of a missing one.
- Client.Client.MainIsHeaviest: totals are 64-bit words, so paths are assumed shorter than 2^55 blocks.
- TokenProtocol.DrainsExactly: a worker has finitely many steps; waiting for a peer that never answers is not modelled.
- SPV clients, wallet updates, peers' tables, broadcasting, dialling and block fetching.
- The transaction pool: its keys differ between insertion (`db.go:426-428`) and removal (`block.go:272-275`).
- `MerkleHash`: its loop drops each reduced level (`block.go:239-247`), so it returns the first transaction's hash.
- Size and missing-field checks, JSON encoding and LevelDB errors.
- The wallet server and client, passwords and cookies, and the miner's timers.
