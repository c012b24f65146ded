# zkAPI: a verified model

zkAPI is a prepaid-credit protocol. A note is deposited in a vault on chain, spent through a
chain of private states that the server signs without opening them, and closed by mutual
close, by a challengeable escape, or by expiry. This project models the vault, the indexer,
the two circuit statements, the server, the wallet, the signer and the arithmetic kernels, and
proves what they keep together. `dafny verify dfyconfig.toml` checks everything.

How the parts fit:

- `Merkle`, `SparseTree`, `Indexer`: trees over any hash, the cached tree of the Rust code, and
  the event-driven mirror that always agrees with the vault.
- `VaultSpec`, `VaultInvariant`, `EntryPoints`, `Vault`: each entry point of the contract as a
  step with all its reverts; the invariant of every run; when exactly each goes through and how
  long its windows are; and the contract object that takes those steps.
- `Pedersen`, `Circuits`, `Protocol`, `Settlement`: the commitments, the two Groth16 statements
  as relations, the world in which adversarial clients, server and vault interleave, and what
  every way of closing a note pays.
- `Server`: the nullifier table and its handlers, one table access a step, with crashes and
  restarts. Every run of it is proved to be a run of `Protocol`, so the results about chains
  and payouts hold of the interleaved server.
- `Transcript`: what a released answer tells is what the provider said to that request.
- `Wallet`: the journal-then-state write order and what a crash between the two can do.
- `Delivery`: server and wallet joined; exactly which answers the server released are adopted, and that
  the wallet pays once whatever dies on either side.
- `Redemption`: wallet against vault and server; what the wallet builds is what it is paid.
- `Recovery`: when a caller and a retry are told the same, over all runs.
- `Signer`, `Xmss`, `Wots`: durable one-time leaves, and signatures from digits to root.
- `Powers`, `Modular`, `Primes`, `SqrtMod`, `Groups`, `Curve`, `ChordLaw`, `Schnorr`: number
  theory from the definition of a prime up to Tonelli-Shanks, the affine curve formulas and the
  line behind them, and Schnorr in and out of the circuit.

What is idealised, and where:

- In the protocol modules Poseidon is ideal: each domain-separated use is a constructor of
  `Felts.Felt`. The Merkle and XMSS lemmas hold for any hash and name the collision otherwise.
- Solidity hashes sibling words with `addmod`, so a sibling is a residue plus a multiple of the
  modulus (`Felts.Word`), and only the residue is forced. Public inputs are residues because
  Groth16ProofAdapter.sol rejects larger values.
- A proof can be made exactly by whoever has a witness, and counts only once it was made:
  `Protocol` records every proof, and vault and server accept recorded proofs alone. A
  signature exists exactly when its message was signed. Commitments live over three independent
  generators of the prime subgroup.
- The leaf multiplies the third generator modulo the subgroup order, which is shorter than the
  field. That no two deposited leaves collide there is a hypothesis (`LeavesStayApart`) of the
  run theorems.
- Associativity of the chord law (`IsGroup` in `Curve.Sound`) is a hypothesis of every result on
  Cairo's commitments; that the law is closed and commutes, has neutral element and inverses,
  takes the third point on the line, and can be undone on a smooth curve, is proved without it.
- Tree depth, XMSS height and the group are parameters; in the code they are 32, 20, and the
  Stark and Baby Jubjub curves. Clock, randomness, provider answers and database connections
  are parameters of the operations that use them.
- The server may have checked a request against an older root by the time it takes the
  nullifier, and a reserved nullifier may be taken again by a retry with other inputs;
  `Protocol` allows both. The order of the server's steps is that of processor.rs, its algebra
  that of `compact.rs::server_update`.

Where the code is weaker than its promise, the exact condition is proved:

- The charge column is an i64, so a retry is told another charge than the first caller exactly
  when the charge lies in [2^63, 2^128 - 2^63) (`Server.ChargeSurvivesIff`,
  `Server.RebuiltIff`, `Server.RecoveryAgreesIff`). Over all runs a vault of a token keeps to one
  answer exactly when the cap is below 2^63 (`Recovery.OneAnswerIff`), and a wallet refuses the
  misread charge (`Delivery.ReleasedIsAdopted`).
- `sqrt_mod` answers None on a nonzero multiple of the prime although zero is a root
  (`SqrtMod.CorrectIff`).
- A durable signer given one seed for both trees reuses leaves across them
  (`Signer.LeavesSafeIff`).
- Cairo's `add_blinding` subtracts the order once and so agrees with Rust exactly below two
  orders (`Curve.SingleSubtractionIff`), which the largest field elements fail
  (`Curve.LargestBlindingsFail`).
- `confirm_deposit` stores a zero secret (`Wallet.NoteWallet.ConfirmDeposit`), under which the
  deposit can neither be spent nor withdrawn (`Settlement.ZeroSecretIsStuck`).

## Model

| member | source | states |
|---|---|---|
| Merkle.PathOpensRoot | rust/crates/zkapi-core/src/merkle.rs:127-144 | the nodes beside a leaf, folded with it, give the root of the tree, for every depth and hash |
| Merkle.FourLeaves | rust/crates/zkapi-core/src/merkle.rs:27-40 | which leaf goes where: the root over four leaves is h(h(a,b),h(c,d)) |
| Merkle.VerifiedUpdate | contracts/src/libraries/MerkleUpdateLib.sol:33-43 | one accepted path check forces the old leaf and all siblings to be those of the tree and makes the second fold the root of the point-updated tree, or it exhibits two different pairs with one digest |
| Merkle.PathBindsOrCollides | contracts/src/libraries/MerkleUpdateLib.sol:17-31 | a walk that meets the node above its index is the true path level by level, or collides |
| Merkle.RestoreLeaf | rust/crates/zkapi-core/src/merkle.rs:96-117 | writing a leaf and putting the old value back restores every node |
| Merkle.ComputeRoot | rust/crates/zkapi-core/src/merkle.rs:27-40 | the shifting loop computes the one fold that the lemmas speak of |
| Merkle.MerkleRoot | rust/crates/zkapi-core/src/v2.rs:107-117 | the loop that reads bit `level` of the id computes the same fold |
| Merkle.HashPairPath | contracts/src/libraries/Bn254Poseidon.sol:39-65 | the fused pass computes the old and the new fold |
| Merkle.ZeroHashes | rust/crates/zkapi-core/src/merkle.rs:14-24 | entry `level` is every node of that level in the empty tree |
| Merkle.EmptyTreeRoot | contracts/src/ZkApiVault.sol:302-309 | a new vault starts with the root of the empty tree |
| SparseTree.MerkleTree.SetLeaf | rust/crates/zkapi-core/src/merkle.rs:96-117 | after any write every cached or defaulted node is the node of the dense tree over the written leaves |
| SparseTree.MerkleTree.Insert | rust/crates/zkapi-core/src/merkle.rs:119-124 | writes at the cursor and advances it by one |
| SparseTree.MerkleTree.GetSiblings | rust/crates/zkapi-core/src/merkle.rs:127-136 | returns the true siblings; folding them with the stored leaf gives the stored root |
| SparseTree.MerkleTree.RootHash | rust/crates/zkapi-core/src/merkle.rs:81-83 | the cached root is the dense root |
| SparseTree.SetAndRestore | rust/crates/zkapi-core/src/merkle.rs:96-117 | overwriting a leaf and restoring it gives the former root |
| VaultInvariant.PathCheckIsSound | contracts/src/libraries/MerkleUpdateLib.sol:33-43 | with adversarial sibling words, one passed check shows the true leaf and yields the root of the updated tree |
| VaultInvariant.TruePathPasses | contracts/src/libraries/MerkleUpdateLib.sol:33-43 | the true siblings always pass, whatever multiple of the modulus is added to each word |
| VaultInvariant.StepKeepsInv | contracts/src/ZkApiVault.sol:98-274 | every entry point, with any arguments, keeps: the root is that of the Active leaves, pending entries match statuses and never exceed deposits, the ledger equals the open deposits, and each closed note was paid out exactly once in full |
| VaultInvariant.RunKeepsInv | contracts/src/ZkApiVault.sol:60-274 | the same after every sequence of calls from deployment |
| VaultInvariant.OpenNotesAreCovered | contracts/src/ZkApiVault.sol:205-221 | an open note can always be paid in full and the subtraction at finalization never underflows |
| VaultInvariant.StepKeepsNotes | contracts/src/ZkApiVault.sol:98-260 | what a note was deposited with never changes, ids and nullifiers only grow, Closed is final |
| VaultInvariant.StepBurns | contracts/src/ZkApiVault.sol:276-279 | a call that opens a withdrawal burns exactly its nullifier, which was fresh; no other call touches the set |
| VaultInvariant.NullifierBurnsOnce | contracts/src/ZkApiVault.sol:276-279 | in every run a nullifier opens at most one withdrawal, challenged or not |
| VaultInvariant.ClaimPaysTreasury | contracts/src/ZkApiVault.sol:223-233 | an expired claim gives the treasury the whole deposit, over the whole log, and no address ever anything for that note |
| VaultInvariant.FinalizePays | contracts/src/ZkApiVault.sol:205-221 | a finalization pays the pending balance to the pending destination and the rest of the deposit to the treasury, and nobody else |
| VaultInvariant.LeafTells | contracts/src/ZkApiVault.sol:298-300 | a leaf tells id, commitment, amount and expiry of its note |
| EntryPoints.DepositIff | contracts/src/ZkApiVault.sol:98-128 | when exactly a deposit goes through, in terms of the tree and not of the hashing that checks it, and the note and funds it leaves: native funds grow by the very value of the call |
| EntryPoints.MutualCloseIff | contracts/src/ZkApiVault.sol:130-141 | when exactly a mutual close goes through, and what it rewrites |
| EntryPoints.InitiateEscapeIff | contracts/src/ZkApiVault.sol:143-175 | when exactly an escape opens, and the entry it stores, with a deadline one whole challenge period after the block |
| EntryPoints.FinalizeEscapeIff | contracts/src/ZkApiVault.sol:205-221 | when exactly an escape can be finalized, and what that rewrites |
| EntryPoints.ClaimExpiredIff | contracts/src/ZkApiVault.sol:223-233 | when exactly an expired note can be claimed, and what that rewrites |
| EntryPoints.EventsAnnounce | contracts/src/ZkApiVault.sol:98-233 | every event announces the root, balance, nullifier and deadline that the storage then holds |
| EntryPoints.EscapeWindow | contracts/src/ZkApiVault.sol:143-221 | whatever else is called while it stays pending, an escape opened at a time can be challenged and not finalized for exactly the challenge period from then, and afterwards the other way round |
| EntryPoints.EscapeLeavesWindow | contracts/src/ZkApiVault.sol:143-221 | so a deployed vault leaves every escape a window that is not empty and as long as its constructor was told |
| EntryPoints.EscapePays | contracts/src/ZkApiVault.sol:143-221 | whatever is called in between, the finalization of an escape pays its destination its balance and the treasury the rest, and over the whole log nobody anything else for the note |
| EntryPoints.ExpiryWindow | contracts/src/ZkApiVault.sol:98-128 | whatever else is called, a note still Active can be claimed exactly from the first midnight on that its time to live has passed since the deposit |
| EntryPoints.ClosingReturnsDeposit | contracts/src/ZkApiVault.sol:262-274 | closing a note takes out of the funds exactly what its deposit brought in: the value of that call in coin, the amount in tokens |
| VaultSpec.BucketedExpiry | contracts/src/ZkApiVault.sol:98-128 | the expiry is the first whole day not before the raw time |
| Vault.ZkApiVault.constructor | contracts/src/ZkApiVault.sol:81-96 | a new vault has the empty tree and satisfies the invariant |
| Vault.ZkApiVault.Deploy | contracts/src/ZkApiVault.sol:53-96 | a deployment succeeds exactly for a nonzero treasury, adapter and challenge period, nonzero keys in the field, and a native cap in range; it then starts in the invariant, and is refused with the source error otherwise |
| Vault.ZkApiVault.MakeDeposit | contracts/src/ZkApiVault.sol:98-128 | deposit takes exactly the specified step or reverts leaving storage untouched |
| Vault.ZkApiVault.CloseMutually | contracts/src/ZkApiVault.sol:130-141 | the same for mutualClose |
| Vault.ZkApiVault.InitiateEscapeWithdrawal | contracts/src/ZkApiVault.sol:143-175 | the same for initiateEscapeWithdrawal |
| Vault.ZkApiVault.ChallengeEscapeWithdrawal | contracts/src/ZkApiVault.sol:177-203 | the same for challengeEscapeWithdrawal |
| Vault.ZkApiVault.FinalizeEscapeWithdrawal | contracts/src/ZkApiVault.sol:205-221 | the same for finalizeEscapeWithdrawal |
| Vault.ZkApiVault.ClaimExpiredNote | contracts/src/ZkApiVault.sol:223-233 | the same for claimExpired |
| Vault.ZkApiVault.Pay | contracts/src/ZkApiVault.sol:262-274 | the owner gets the balance, the treasury the operator share, nobody else anything, and exactly their sum leaves the funds; or nothing moves |
| Vault.ZkApiVault.Execute | contracts/src/ZkApiVault.sol:98-233 | any call on the contract object performs its specified step and keeps the invariant |
| Indexer.TreeMirror.ProcessEvent | rust/crates/zkapi-indexer/src/tree_mirror.rs:51-84 | replaying one event changes tree and remembered leaves as specified |
| Indexer.TreeMirror.GetPath | rust/crates/zkapi-indexer/src/tree_mirror.rs:35-38 | serves the true siblings of the mirrored leaves |
| Indexer.StepDescribed | contracts/src/ZkApiVault.sol:98-233 | every emitted event is truthful and complete about the one record its call rewrote |
| Indexer.EventKeepsSync | rust/crates/zkapi-indexer/src/tree_mirror.rs:51-84 | a synced mirror stays synced, challenge restores from the remembered leaf included |
| Indexer.RunKeepsSync | rust/crates/zkapi-indexer/src/tree_mirror.rs:51-84 | replaying the log of any run gives the leaves of the Active notes |
| Indexer.MirrorRootIsVaultRoot | rust/crates/zkapi-indexer/src/tree_mirror.rs:25-27 | after any run mirror root and stored root are equal |
| Indexer.ServedPathIsAccepted | rust/crates/zkapi-indexer/src/tree_mirror.rs:35-38 | no call that uses a path a synced mirror serves is refused as stale |
| Indexer.TreePath | rust/crates/zkapi-browser/src/lib.rs:155-180 | the browser serves a path only for a consistent index under a root it recomputed; each refusal has its exact condition |
| Pedersen.CommitBinds | rust/crates/zkapi-proof/src/groth16.rs:148-160 | one commitment has one 128-bit balance, one blinding and one leaf scalar |
| Pedersen.UpdateOpens | rust/crates/zkapi-proof/src/compact.rs:421-430 | the server charges a commitment it cannot open and the owner opens the result to balance minus charge |
| Pedersen.ChargeIsDetermined | rust/crates/zkapi-proof/src/compact.rs:421-430 | different charges give different commitments |
| Pedersen.OpensIffCovered | rust/crates/zkapi-proof/src/compact.rs:421-430 | an updated commitment opens to some 128-bit balance exactly when the charge was covered: no wrap-around |
| Pedersen.HistoryOpens | rust/crates/zkapi-crypto/src/pedersen.rs:116-151 | any sequence of rerandomizations and updates opens to the deposit minus all charges and the sum of all blindings |
| Pedersen.CommitByBits | rust/crates/zkapi-proof/src/groth16.rs:273-287 | double-and-add over the bits of balance, blinding and the full leaf computes the commitment |
| Pedersen.MultipleIsTimes | rust/crates/zkapi-crypto/src/pedersen.rs:77-88 | repeated point addition is multiplication of the coordinates |
| Circuits.AuthorizationBinds | rust/crates/zkapi-proof/src/groth16.rs:472-484 | one authorization tag is good for one nullifier, one state and one request context |
| Circuits.WithdrawalTagBinds | rust/crates/zkapi-proof/src/groth16.rs:641-672 | one withdrawal tag is good for one nullifier, destination, balance and way of closing |
| Circuits.ForeignSignaturesAreUseless | rust/crates/zkapi-proof/src/groth16.rs:404-470 | without a signature of this deployment under its own key only a genesis state can be spent or withdrawn, and nothing closed with a clearance |
| Protocol.NextCommitmentOpens | rust/crates/zkapi-server/src/processor.rs:214-251 | what the server signs opens, for the owner, to the proven balance minus the charge |
| Protocol.SignedStateBinds | rust/crates/zkapi-proof/src/groth16.rs:404-470 | any opening of a signed state shows the note and the balance it was signed for |
| Protocol.RequestBeforeExpiry | rust/crates/zkapi-proof/src/groth16.rs:369-400 | no accepted request lies after the expiry its note was deposited with, and its witness shows the deposited amount and commitment |
| Protocol.UnspentIsTip | rust/crates/zkapi-proof/src/groth16.rs:404-470 | a state whose nullifier no request took is the end of its chain and worth the deposit minus all charges |
| Protocol.RequestSpendsTip | rust/crates/zkapi-proof/src/groth16.rs:404-470 | a provable request on a fresh nullifier spends exactly the state at the end of its chain |
| Protocol.ReserveKeepsChain | rust/crates/zkapi-server/src/processor.rs:133-188 | an accepted request on a fresh nullifier extends the chain of its own note and no other |
| Protocol.RetakeIsFresh | rust/crates/zkapi-server/src/processor.rs:177-182 | a retry that holds a reserved nullifier with other inputs is a fresh request once the first is forgotten |
| Protocol.ActionKeepsGood | rust/crates/zkapi-server/src/processor.rs:133-212 | every proof made, vault call, root sync, reservation, finalization and clearance keeps all chains linear and balanced |
| Protocol.RunIsGood | rust/crates/zkapi-server/src/processor.rs:80-382 | in every run of adversarial clients, server and vault the requests of each note form one linear chain |
| Settlement.NoForks | rust/crates/zkapi-proof/src/groth16.rs:404-470 | two accepted requests never spend the same signed state |
| Settlement.ChainIsUnique | rust/crates/zkapi-proof/src/groth16.rs:404-470 | any two chains of the accepted requests of a note are equal |
| Settlement.SignedCommitmentOpens | rust/crates/zkapi-proof/src/compact.rs:421-430 | every signed commitment on a chain opens to the deposit minus the charges up to it, never negative and never wrapped |
| Settlement.UnspentWithdrawalIsExact | rust/crates/zkapi-proof/src/groth16.rs:576-640 | a withdrawal on a state no request took claims exactly the deposit minus all charges |
| Settlement.UnchargedWithdrawalIsExact | rust/crates/zkapi-server/src/nullifier_store.rs:97-128 | so does one on a state whose request was only reserved: a reservation holds no charge and no proof |
| Settlement.ClearanceExcludesRequests | rust/crates/zkapi-server/src/processor.rs:351-382 | a nullifier with a released clearance was taken by no request |
| Settlement.ClearedNoteIsFrozen | rust/crates/zkapi-server/src/processor.rs:351-382 | once a clearance for the unspent state is out, no legal continuation accepts a request on that note: its chain and its charges stay as they are |
| Settlement.MutualClosePaysExactly | contracts/src/ZkApiVault.sol:130-141 | a mutual close raises what the log paid the owner by exactly the deposit minus all charges, the treasury by exactly the charges, and nobody else |
| Settlement.RunClosesExactly | contracts/src/ZkApiVault.sol:130-141 | after any legal run, with the one chain of the note: over the whole log the address got deposit minus charges, the treasury the charges, nobody else anything |
| Settlement.RunIsBacked | contracts/src/ZkApiVault.sol:143-175 | in every run each pending escape is backed by the proof it was opened with |
| Settlement.EscapeIsExactOrCharged | contracts/src/ZkApiVault.sol:143-221 | a pending escape claims the exact balance unless the request on its state was charged |
| Settlement.RunEscapesAreExactOrCharged | contracts/src/ZkApiVault.sol:143-221 | the same in every run |
| Settlement.ChallengeIff | contracts/src/ZkApiVault.sol:177-203 | the exact condition under which a challenge goes through, and that it restores the note, removes the pending entry and puts exactly that leaf back |
| Settlement.ChallengeSucceeds | contracts/src/ZkApiVault.sol:177-203 | before the deadline the archived request always defeats an escape on the state it was charged on, whatever its historical root, and exactly that leaf is put back |
| Settlement.ChallengeNeedsSameState | contracts/src/ZkApiVault.sol:177-203 | a challenge that goes through shows a request proof that somebody made, over the very secret and anchor being withdrawn |
| Settlement.UnprovenEscapeIsSafe | contracts/src/ZkApiVault.sol:177-221 | an escape on a state for which nobody ever proves a request cannot be challenged: whatever follows, it stays pending until its own finalization, which pays its address exactly the deposit minus all charges and the treasury the charges |
| Settlement.FinalizedEscapePays | contracts/src/ZkApiVault.sol:205-221 | an escape that runs out its window pays its destination exactly the balance and the treasury the charges, unless a charged request could have been shown |
| Settlement.RunFinalizesExactly | contracts/src/ZkApiVault.sol:205-221 | the same after any legal run, over the whole log |
| Settlement.ZeroSecretIsStuck | rust/crates/zkapi-proof/src/groth16.rs:394-395 | a note deposited under a zero secret never has an accepted request, and every withdrawal from it reverts |
| Wallet.AdoptedStateIsGood | rust/crates/zkapi-client/src/wallet_v2.rs:471-550 | whatever the server answers, an adopted state opens its commitment, is signed, keeps the note and lost exactly the charge |
| Wallet.BuiltRequestIsProvable | rust/crates/zkapi-client/src/wallet_v2.rs:171-269 | a request from a good state is provable exactly when its path is true and the note unexpired |
| Wallet.BuiltWithdrawalIsProvable | rust/crates/zkapi-client/src/wallet_v2.rs:389-442 | a withdrawal from a good state is provable exactly when its path is true and its clearance real |
| Wallet.ReapplyChangesNothing | rust/crates/zkapi-client/src/wallet_v2.rs:274-334 | completing an applied journal again is refused by the commitment algebra, except exactly when nothing was charged and the blindings cancel, and then it changes nothing |
| Wallet.AppliedAtMostOnce | rust/crates/zkapi-client/src/wallet_v2.rs:274-334 | over all crash points and attempts, with any tellings of one answer while the server signs on, the disk holds the old state or the one adopted state, never goes back, and is good |
| Wallet.NoteWallet.ConfirmDeposit | rust/crates/zkapi-client/src/wallet_v2.rs:88-124 | refuses a second note; stores the note field by field with its whole amount and commitment; the state is good exactly when the secret is not zero |
| Wallet.NoteWallet.PrepareRequest | rust/crates/zkapi-client/src/wallet_v2.rs:171-269 | the exact condition for a journal to be written, every public input of the request, and that it has a proof |
| Wallet.NoteWallet.CompletePendingResponse | rust/crates/zkapi-client/src/wallet_v2.rs:274-334 | an answer is taken only if it names this request, hashes right and charges within cap and balance; state is saved before the journal is cleared, and a process that dies in between leaves both and a good state |
| Wallet.NoteWallet.BuildWithdrawal | rust/crates/zkapi-client/src/wallet_v2.rs:389-442 | the exact condition for a withdrawal to be built, every public input of it with the caller destination and the wallet balance, and that it has a proof |
| Redemption.ClosePaysWallet | rust/crates/zkapi-client/src/wallet_v2.rs:389-442 | over any run a mutual close with the built inputs pays the wallet address its balance and the treasury the rest of the deposit, and nobody else |
| Redemption.EscapePaysWallet | rust/crates/zkapi-client/src/wallet_v2.rs:389-442 | so does the finalization of an escape opened with them, whatever is called in between |
| Redemption.FreshDepositIsWhole | rust/crates/zkapi-client/src/wallet_v2.rs:88-124 | a wallet that confirms its own deposit can at once prove a withdrawal of all of it, and a request while the note lives |
| Redemption.PreparedRequestPasses | rust/crates/zkapi-server/src/processor.rs:80-166 | a request prepared under the server root and proved passes every check of a server whose cap is not above that of the wallet |
| Server.ChargeSurvivesIff | rust/crates/zkapi-server/src/nullifier_store.rs:147-156 | a u128 charge is read back unchanged exactly below 2^63 or from 2^128 - 2^63 on |
| Server.RebuiltIff | rust/crates/zkapi-server/src/processor.rs:426-450 | a rebuilt response differs from the first in the charge at most, and there exactly when the charge does not survive the column |
| Server.LargeChargeIsMisread | rust/crates/zkapi-server/src/nullifier_store.rs:147-156 | concrete loss: a charge of 2^63 comes back as 2^128 - 2^63 |
| Server.NullifierStore.Reserve | rust/crates/zkapi-server/src/nullifier_store.rs:97-128 | inserts under a unique key or reports a replay and changes nothing |
| Server.NullifierStore.Finalize | rust/crates/zkapi-server/src/nullifier_store.rs:131-205 | of all finalizers one succeeds; the row keeps its request id and payload hash |
| Server.NullifierStore.ReserveClearance | rust/crates/zkapi-server/src/nullifier_store.rs:237-266 | inserts a clearance row or reports the nullifier used |
| Server.NullifierStore.LookUpByClientId | rust/crates/zkapi-server/src/nullifier_store.rs:222-234 | finds some row of that client request exactly when there is one |
| Server.EventAdvances | rust/crates/zkapi-server/src/nullifier_store.rs:97-266 | under every interleaving a row goes none, reserved, finalized or none, cleared, and nothing else |
| Server.EventKeepsInv | rust/crates/zkapi-server/src/processor.rs:168-303 | every step of every handler, and every crash, keeps table, protocol view, handlers and released answers consistent |
| Server.AnswersAgree | rust/crates/zkapi-server/src/processor.rs:280-303 | all answers ever released for a nullifier, rebuilt ones included, are equal whenever the signed charge survives the column |
| Server.AnswersAgreeUpToCharge | rust/crates/zkapi-server/src/processor.rs:426-450 | for every charge they are equal up to the charge column |
| Server.RequestCanCommit | rust/crates/zkapi-server/src/processor.rs:168-304 | from any reached state without handlers a request that passes the checks on a free nullifier, or on one that its own dead attempt reserved, can be taken to a committed answer that tells what the provider said, with any charge within the cap |
| Server.RecoveryAgreesIff | rust/crates/zkapi-server/src/processor.rs:400-450 | once an answer is committed, a direct and a recovered telling can both be released, and they agree exactly when the charge survives the column |
| Recovery.SmallCapAgrees | rust/crates/zkapi-server/src/nullifier_store.rs:147-156 | with a cap below 2^63 all answers released for a nullifier are equal |
| Recovery.LargeCapDiverges | rust/crates/zkapi-server/src/nullifier_store.rs:147-156 | with any larger cap a run from deployment (deposit, proof, request, recovery) releases 2^63 to the caller and 2^128 - 2^63 to whoever recovers |
| Recovery.OneAnswerIff | rust/crates/zkapi-server/src/nullifier_store.rs:147-156 | a token vault that takes large notes has one answer per nullifier in every run exactly when the cap is below 2^63 |
| Recovery.NativeVaultKeepsToOneAnswer | contracts/src/ZkApiVault.sol:81-86 | the cap that the constructor admits for a native vault rules the misreading out in every run |
| Server.NeverAnswerAndClearance | rust/crates/zkapi-server/src/processor.rs:351-382 | of an answer and a clearance at most one is ever released for a nullifier |
| Server.ReleasedIsSigned | rust/crates/zkapi-server/src/processor.rs:284-304 | a released commitment, anchor and blinding are those the protocol signed for the request that won the nullifier, and the charge is the signed one, as it is or as it is read back |
| Server.RetryIsToldTheSame | rust/crates/zkapi-server/src/processor.rs:168-176 | a finalized request sent again is told the record and takes nothing |
| Server.LookUpDecides | rust/crates/zkapi-server/src/processor.rs:168-188 | a request is let through exactly on a free nullifier or one taken by the same client request with the same payload, and then goes on where the first attempt died or is read the record |
| Server.RunFollowsProtocol | rust/crates/zkapi-server/src/processor.rs:80-382 | every run of interleaved, dying handlers is a run of the atomic protocol |
| Server.RunIsGood | rust/crates/zkapi-server/src/processor.rs:80-382 | so chains stay linear and balanced, and escapes backed, in every run of the server |
| Server.ExecuteAndFinalize | rust/crates/zkapi-server/src/processor.rs:189-304 | provider call, signing and finalization do what the handler steps do alone, and the answer carries the code, payload, charge, reason and evidence of the provider field by field |
| Server.ProcessRequest | rust/crates/zkapi-server/src/processor.rs:168-304 | process_request from the lookup on does what its handler steps do alone; an answer not read back tells what the provider said field by field, and a replay is refused exactly for another client request, another payload or a cleared nullifier |
| Transcript.AnswerIsGenuine | rust/crates/zkapi-server/src/processor.rs:189-304 | in every run a released answer, direct or rebuilt, carries what the provider returned to a handler holding that very request and the signing place used for it, and the entry was charged exactly that charge |
| Transcript.RecalledIsSameQuestion | rust/crates/zkapi-server/src/processor.rs:168-176 | an answer read back is for the same client request, payload and nullifier |
| Server.ProcessClearance | rust/crates/zkapi-server/src/processor.rs:351-382 | a clearance is released exactly when the nullifier was free, which it then no longer is |
| Delivery.ChargeIsCovered | rust/crates/zkapi-proof/src/groth16.rs:404-470 | with a cap below 2^63 the charge the wallet reads is the one that was signed, within the cap, and within the balance it holds |
| Delivery.ReleasedIsAdopted | rust/crates/zkapi-client/src/wallet_v2.rs:471-550 | a wallet whose request won its nullifier adopts a released answer, direct or rebuilt, exactly when it tells the signed charge and the wallet cap admits it, with the exact error otherwise, and then lost exactly the charge |
| Delivery.PaidAtMostOnce | rust/crates/zkapi-client/src/wallet_v2.rs:274-334 | over any run of the server, with any answers released for its nullifier and any crashes of its own, the wallet pays the signed charge once or not at all |
| Signer.SignerStateStore.EnsureTree | rust/crates/zkapi-server/src/signer.rs:289-326 | a stored tree with another epoch or root is refused, a missing one starts at leaf zero |
| Signer.SignerStateStore.ReserveLeaf | rust/crates/zkapi-server/src/signer.rs:344-391 | hands out the stored counter and advances it, or refuses and changes nothing |
| Signer.SignNext | rust/crates/zkapi-server/src/signer.rs:119-179 | a durable signature uses the leaf just reserved, on the message built from that leaf |
| Signer.EventGrowsCounters | rust/crates/zkapi-server/src/signer.rs:289-391 | stored trees never change and their counters never fall |
| Signer.OneMessagePerLeaf | rust/crates/zkapi-server/src/signer.rs:62-179 | in every history of signers on one database no leaf of a tree signs two messages, and used leaves are below counter and capacity |
| Signer.LeavesSafeIff | rust/crates/zkapi-server/src/signer.rs:62-86 | across both trees of a signer no leaf signs twice exactly when the state and clearance trees differ |
| Signer.EqualTreesReuse | rust/crates/zkapi-server/src/signer.rs:62-86 | with equal trees two signatures suffice to reuse a leaf |
| Wots.MessageToBaseW | rust/crates/zkapi-crypto/src/wots.rs:62-99 | byte and mask extraction gives the 65 digits |
| Wots.MessageToBaseWByDivision | cairo/src/xmss/wots.cairo:51-95 | repeated division gives the same 65 digits |
| Wots.ChecksumDominates | rust/crates/zkapi-crypto/src/wots.rs:84-99 | two messages with different low 248 bits each have a chain position strictly below the other |
| Wots.SecondSignatureBreaksChain | rust/crates/zkapi-crypto/src/wots.rs:84-139 | a signature on a second message with other low 248 bits under one key walks through a preimage of a published element or merges two values of a chain |
| Wots.ChecksumByDivision | cairo/src/xmss/wots.cairo:83-92 | below 16^3 the three checksum digits are exact |
| Wots.DigitsSpell | rust/crates/zkapi-crypto/src/wots.rs:62-99 | the first 62 positions spell the low 248 bits in hexadecimal, the last three what their sum lacks of 15 each |
| Wots.ChainsCompose | rust/crates/zkapi-crypto/src/wots.rs:30-36 | two stretches of a chain are one |
| Wots.ChainStarts | rust/crates/zkapi-crypto/src/wots.rs:30-36 | each step of a chain is taken under its own index |
| Wots.SignatureRecoversKey | rust/crates/zkapi-crypto/src/wots.rs:102-139 | verifying a signature recovers the key it was made with, for every message |
| Wots.ComputeChain | rust/crates/zkapi-crypto/src/wots.rs:30-36 | the loop walks the specified chain |
| Wots.Keygen | rust/crates/zkapi-crypto/src/wots.rs:39-46 | computes the specified key |
| Wots.Sign | rust/crates/zkapi-crypto/src/wots.rs:102-117 | computes the specified signature from the Rust digits |
| Wots.Recover | rust/crates/zkapi-crypto/src/wots.rs:122-139 | computes the recovered key from the Rust digits |
| Wots.RecoverByDivision | cairo/src/xmss/wots.cairo:106-123 | the Cairo verifier recovers the same key, or rejects a wrong length |
| Xmss.XmssKeypair.constructor | rust/crates/zkapi-crypto/src/xmss.rs:58-109 | the level-by-level tree holds, on every level, the nodes of the tree over the WOTS+ leaves |
| Xmss.XmssKeypair.AuthPath | rust/crates/zkapi-crypto/src/xmss.rs:143-150 | the path read from the stored levels is the true one |
| Xmss.XmssKeypair.SignWithIndex | rust/crates/zkapi-crypto/src/xmss.rs:126-160 | signs with the cursor leaf, from the message built for it, and spends it; refuses when exhausted |
| Xmss.XmssKeypair.SignReserved | rust/crates/zkapi-crypto/src/xmss.rs:167-195 | signs with a given leaf and never moves the cursor back |
| Xmss.SignatureIsAccepted | rust/crates/zkapi-crypto/src/xmss.rs:236-275 | for every height, seed, leaf and message the signature is accepted under the root of the key |
| Xmss.SecretsDiffer | rust/crates/zkapi-crypto/src/xmss.rs:58-109 | no two chains of a key start from one secret where the derivation separates places |
| Xmss.AcceptedNamesLeaf | rust/crates/zkapi-crypto/src/xmss.rs:248-275 | an accepted signature recovers the WOTS+ leaf at its index, or its path collides with the tree |
| Xmss.ForgeryBreaksHash | rust/crates/zkapi-crypto/src/xmss.rs:229-275 | a second message with other low 248 bits accepted at a used leaf exhibits a node collision, a second key with the digest of the leaf, or a broken chain |
| Xmss.Verify | rust/crates/zkapi-crypto/src/xmss.rs:229-275 | the Rust verifier accepts exactly the well-shaped signatures below height 32 that lead to the root |
| Xmss.VerifyAuthPath | cairo/src/xmss/tree.cairo:22-43 | the final zero check is the index bound: accepted exactly for heights 1 to 20, an index in the tree and a path to the root |
| Xmss.VerifyInCairo | cairo/src/xmss/verify.cairo:20-38 | the Cairo verifier accepts exactly what Rust accepts at heights 1 to 20 |
| SqrtMod.NonResidueExists | scripts/generate_pedersen_generators.py:28-30 | the search for a non-residue ends below p: x^((p-1)/2) - 1 has no more roots than its degree |
| SqrtMod.SquarePasses | scripts/generate_pedersen_generators.py:21-22 | every nonzero square passes the test |
| SqrtMod.Begins | scripts/generate_pedersen_generators.py:31-34 | the loop invariant r*r = t*n, c^(2^(m-1)) = -1, t^(2^(m-1)) = 1 holds at the start |
| SqrtMod.Continues | scripts/generate_pedersen_generators.py:41-45 | one round keeps it with a strictly smaller m |
| SqrtMod.OrderExponent | scripts/generate_pedersen_generators.py:36-40 | the inner loop ends below m, with the least exponent |
| SqrtMod.LeastNonResidue | scripts/generate_pedersen_generators.py:28-30 | the outer search ends, at the least non-residue |
| SqrtMod.SqrtMod | scripts/generate_pedersen_generators.py:18-46 | terminates, and returns a root exactly for zero and for the squares that are not multiples of p |
| SqrtMod.CorrectIff | scripts/generate_pedersen_generators.py:18-22 | answering exactly when a root exists is met if and only if n is zero or not a multiple of p |
| SqrtMod.MultiplesHaveRootZero | scripts/generate_pedersen_generators.py:19-22 | on a nonzero multiple of p the answer None misses the root zero |
| SqrtMod.EvenRoot | scripts/generate_pedersen_generators.py:54-57 | of the two roots of a nonzero square the even one |
| SqrtMod.Derive | scripts/generate_pedersen_generators.py:49-59 | returns the first counter whose digest is the abscissa of a curve point with nonzero ordinate, and its even ordinate; None only if there is none |
| Curve.DerivedIsOnCurve | scripts/generate_pedersen_generators.py:49-59 | the derived pair is a point of the curve with nonzero ordinate |
| Groups.ScalarMul | rust/crates/zkapi-crypto/src/pedersen.rs:77-88 | double-and-add over bits is the scalar multiple, in any commutative group |
| Groups.MultipleWraps | rust/crates/zkapi-crypto/src/pedersen.rs:47-58 | a scalar counts modulo the order |
| Curve.DivideIs | cairo/src/pedersen_balance.cairo:62-64 | felt252_div times its divisor is the dividend |
| Curve.ThirdIsOnCurve | cairo/src/pedersen_balance.cairo:65-67 | a line that meets the cubic twice meets it a third time where the formulas say |
| Curve.DoubleStaysOnCurve | cairo/src/pedersen_balance.cairo:54-68 | doubling a curve point gives a curve point |
| Curve.AddStaysOnCurve | cairo/src/pedersen_balance.cairo:70-91 | adding curve points gives a curve point, in every branch |
| Curve.AddCommutes | cairo/src/pedersen_balance.cairo:70-91 | addition commutes although the formula is lopsided |
| Curve.CurveIsGroupIff | cairo/src/pedersen_balance.cairo:54-91 | closure, inverses, neutral element and commutativity hold; the law is a group law exactly when it associates |
| ChordLaw.NegatedSumIsThird | cairo/src/pedersen_balance.cairo:54-91 | for chord and tangent the negated sum lies on the line of the two points, and the three abscissas add up to the square of its slope |
| ChordLaw.ChordThird | cairo/src/pedersen_balance.cairo:70-91 | the same for the chord, written out as congruences between the coordinates |
| ChordLaw.TangentThird | cairo/src/pedersen_balance.cairo:54-68 | the same for the tangent of a doubling |
| ChordLaw.AdditionCancels | cairo/src/pedersen_balance.cairo:54-91 | on a smooth curve adding the inverse of a point undoes adding the point, in every branch and without associativity |
| ChordLaw.SmoothIff | cairo/src/pedersen_balance.cairo:54-68 | a curve has no singular point exactly when 4 + 27 beta^2 is not zero |
| ChordLaw.SingularSwallows | cairo/src/pedersen_balance.cairo:70-91 | through a singular point the formulas swallow a summand: (-2x, 0) + (x, 0) = (x, 0) |
| ChordLaw.CancelsIff | cairo/src/pedersen_balance.cairo:54-91 | addition can be undone on the whole curve exactly when the discriminant does not vanish |
| Curve.ScalarMul | cairo/src/pedersen_balance.cairo:93-161 | every intermediate is a curve point, and the result is the multiple by the scalar modulo 2^bits where the law associates |
| Curve.SingleSubtractionIff | cairo/src/pedersen_balance.cairo:44-52 | one subtraction equals reduction modulo the order exactly when the sum is below two orders |
| Curve.LargestBlindingsFail | cairo/src/pedersen_balance.cairo:44-52 | on the two largest field elements it always fails: the code panics, or is off by one order where the field is only one wider |
| Curve.ComputeCommitment | cairo/src/pedersen_balance.cairo:167-177 | given that the chord law associates, computes balance*G + blinding*H, or panics exactly on a wide balance or on infinity |
| Curve.RerandomizeCommitment | cairo/src/pedersen_balance.cairo:183-192 | given that the chord law associates, adds delta*H, or panics exactly on infinity |
| Curve.RerandomizedIs | cairo/src/pedersen_balance.cairo:179-192 | given that the chord law associates, rerandomizing is committing with the blindings added modulo the order |
| Curve.CommitmentSteps | cairo/src/pedersen_balance.cairo:167-177 | given that the chord law associates, nothing commits to infinity, one unit of balance adds G and one of blinding adds H |
| Curve.GenesisBranch | cairo/src/request/program.cairo:94-102 | given that the chord law associates, the genesis branch shows the commitment with the blindings added modulo the order |
| Curve.SignedBranch | cairo/src/request/program.cairo:103-123 | given that the chord law associates, the signed branch shows the same, unless the intermediate commitment is infinity |
| Curve.BranchesAgree | cairo/src/request/program.cairo:94-123 | given that the chord law associates, on canonical blindings both branches show one anonymised commitment whenever the signed one is a point |
| Schnorr.SignedVerifies | rust/crates/zkapi-proof/src/groth16.rs:189-257 | what is signed verifies, for every secret, nonce and message |
| Schnorr.NonceShows | rust/crates/zkapi-proof/src/groth16.rs:189-201 | signatures under different nonces below the order show different points |
| Schnorr.ReusedNonceShowsKey | rust/crates/zkapi-proof/src/groth16.rs:189-201 | two messages under one nonce give the key away: the signatures differ by the key times the difference of the hashes |
| Schnorr.MessageIsBound | rust/crates/zkapi-proof/src/groth16.rs:243-257 | one signature is good for two messages only where their hashes agree modulo the order |
| Schnorr.CircuitAgrees | rust/crates/zkapi-proof/src/groth16.rs:289-312 | for a key in the prime subgroup circuit and native check accept the same signatures |
| Schnorr.FullHashIff | rust/crates/zkapi-proof/src/groth16.rs:243-257 | full hash and reduced challenge give the same multiple of any key exactly when the order multiple in between kills it |
| Schnorr.SignedPassesCircuit | rust/crates/zkapi-proof/src/groth16.rs:189-312 | every signature of a generated key passes the circuit check |
| Schnorr.EnforceSignature | rust/crates/zkapi-proof/src/groth16.rs:289-312 | the bit-wise scalar multiplications decide the circuit relation |

## Left out

- Recovery.OneAnswerIff: about vaults of a token that take a deposit of a full u128 at time zero; for native vaults see Recovery.NativeVaultKeepsToOneAnswer.
- Curve.ScalarMul: that the chord law associates is a hypothesis of the multiple it computes; staying on the curve needs no hypothesis.
- Curve.ComputeCommitment: holds under the same hypothesis, that the chord law associates.
- Curve.RerandomizeCommitment: holds under the same hypothesis, that the chord law associates.
- Curve.RerandomizedIs: holds under the same hypothesis, that the chord law associates.
- Curve.GenesisBranch: holds under the same hypothesis, that the chord law associates.
- Curve.SignedBranch: holds under the same hypothesis, that the chord law associates.
- Curve.BranchesAgree: holds under the same hypothesis, that the chord law associates.
- Curve.CommitmentSteps: holds under the same hypothesis, that the chord law associates.
- Server.AnswersAgree: asks that the signed charge survives its column, because the stored column loses the others; what holds for those is Server.AnswersAgreeUpToCharge, and the exact condition over all runs Recovery.OneAnswerIff.
- Protocol.RunIsGood: assumes that deposited leaves stay distinct modulo the subgroup order; the expiry that the first server version checks in its own public inputs is not modelled, the circuit's request time is.
- Wallet.AppliedAtMostOnce: assumes one round, that is, answers that agree up to the charge; a server that answers one request in two ways is excluded by Server.AnswersAgreeUpToCharge, not by the wallet. No claim that a wallet recovers by itself after a crash between saving and clearing.
- Indexer.TreeMirror.ProcessEvent: the mirror's next note id is not claimed to follow the vault, since replaying sets leaves without advancing it.
- Indexer.TreePath: the browser's request and response functions are covered through the wallet's, with the journal's solvency bound as the cap.
- Owner actions (naming an owner, pausing, setting the treasury), fee-on-transfer tokens, forced ether transfers and gas.
- Groth16 pairings, setup and Solidity generation; the Poseidon permutation; Keccak; the concrete curve and field constants of the generators.
- HTTP, JSON, SQLite and file plumbing: a table is a map with atomic writes, a file is replaced whole.
- The first wallet version, and the WOTS+ secret handling beyond its derivation from seed and indices.
- That the constant moduli are prime; primality is a hypothesis of the arithmetic results.
- The in-memory, non-durable signer paths, which differ from the durable ones in the counter only.
