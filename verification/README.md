# Yieldfy: a verified model

Yieldfy takes deposits of wXRP into a vault on Solana and mints yXRP receipts one to one; once per
epoch it distributes SOL to wallets that both hold its token and have a vault position. This
project models the parts of it in which value is kept or paid out, and proves what they promise.

- **The vault program** (`VaultModel`, `VaultProgram`, `VaultSafety`, `VaultEntry`, `VaultExit`,
  `VaultReceipts`, `VaultHoldings`, `VaultGovernance`, `VaultWitness`, over `Token` and `Sums`). `VaultProgram.Vault` is the program
  as a class, one method per instruction. Each method is proved equal to one step of the transition
  function `VaultModel.Apply`, which also has the steps of everybody else: opening token accounts,
  moving, issuing and retiring wXRP, moving and burning yXRP. Runs are arbitrary sequences of all
  these steps, with failed ones in between. The program's saturating arithmetic is exact only
  because of solvency, so both are proved in one induction.
- **The attestation** (`Attestation`): the scan and byte checks of the program, the two encoders.
- **The rewards pipeline** (`Snapshot`, `VaultSnapshot`, `Rewards`, `Merkle`, `ClaimTree`, `Epoch`, `Storage`,
  `SaberCodec`, `SaberBundle`, `SaberPublisher`, `ClaimRuns`, `Indexer`, `IndexerSafety`, `RunGuard`,
  `GuardWitness`, `ProposalRuns`, `PublishedRecords`): chain snapshot, scoring, flooring to lamports, claim tree, stored record, publish
  bundle, HTTP handlers with restarts in between, and any sequence of claim attempts against the
  distributor that the bundle creates.
- **The amount field** (`Amount`, over `Decimal`) and **the webhook subscription store**
  (`Subscriptions`, `SubscriptionRuns`).

Three choices matter for reading the results.

- *Hashing.* The hash is an arbitrary function from byte strings to 32 bytes, with no axiom about
  it. Completeness holds for every such function. Binding is stated constructively: the lemma
  returns two byte strings, one hashed while building the tree and one hashed while checking the
  claim, and either the claim is a leaf or these two collide. Results that need a collision-free
  hash ask only that no such pair collides. Siblings may have any length but 16 bytes, the only one
  at which a node's preimage has the 48 bytes of a leaf's.
- *Numbers.* Everything in USD, SOL and token amounts of the rewards side is over exact reals, not
  IEEE doubles, and `Math.pow` is any function that is nonnegative on nonnegative bases and positive
  on positive ones. On-chain amounts are integers with the 64-bit limits written out.
- *Starting point.* Vault runs start before `initialize`, with no yXRP in existence and its mint
  authority already with the Config address, so that only the program mints it.

Where the code and the documents disagree the model follows the code:

- AUDIT.md says that the authority is set once and never changed. It stays through a run exactly when
  it never signs itself away (`VaultGovernance.AuthorityStaysExactly`), and it can
  (`VaultWitness.AuthorityChanges`). AUDIT.md also has the authority sign rebalances and the
  attestation at index 0; the position's owner signs them (`VaultEntry.RebalanceChangesOnlyTheVenue`)
  and the attestation is found anywhere up to index 15 (`Attestation.PrependingIsNeutral`).
- AUDIT.md wants a position's principal to equal the user's yXRP balance through deposits and
  withdrawals. A deposit may mint to any receipt account: `VaultWitness.DepositElsewhere` is a run of
  one deposit after which the user holds no yXRP and cannot take the deposit out again.
  `VaultHoldings.HoldingsSurviveExactly` says which next steps keep principal equal to all the yXRP
  that the user holds, and `HoldingsMatchExactly` which runs keep it throughout. `VaultReceipts` has
  the same for a single receipt account.
- ops/scripts/watch-mainnet.ts checks two equalities. `VaultWitness` has short runs from before
  `initialize` on which they fail: a donation, a burn, and a withdrawal that pays the vault. Each
  holds if and only if nothing came from outside (`VaultSafety.WatcherEqualities`); what always
  holds are the inequalities of `Solvency`.
- A record that passes the publisher's skip test can still make the bundle builder throw, when its
  total exceeds 64 bits: `SaberBundle.OversizedTotalThrows` has the input, `CapsMatchTheTree` the
  exact condition, and `FittingPoolIsPublishable` a test on the market data that rules it out before
  the run.
- `saberDistributor` is there so that an epoch is published once. Sending the proposal and waiting for
  its confirmation are two calls, and the record is written after both: when the second throws, the
  next publication proposes another distributor for the same leaves (`ProposalRuns.TwoProposals`).
  `AtMostOneProposal` has the exact condition.
- The comment on `/admin/run-epoch` promises to refuse while the last published epoch is young. The
  guard reads `latest.json`, which publishing an older epoch rewrites. `RunGuard` shows that the
  promise holds exactly while the record last written ended no earlier than the newest epoch, and so
  along a run exactly until an epoch that ended before the newest is published.
  `GuardWitness.DoubleDistribution` is a run after which a further epoch is made one millisecond
  after the last.
- The amount sanitizer is its own fixed point, and its output parses, exactly for inputs whose
  integer part is finite as a double; `Amount.LongNumberIsLost` has those on which it fails.

## Model

| member | source | states |
|---|---|---|
| `VaultProgram.Vault.constructor` | programs/yieldfy/src/lib.rs:95-124 | A deployed program that is not initialized: no Config, no positions, ledgers as given. |
| `VaultProgram.Vault.Initialize` | programs/yieldfy/src/lib.rs:32-43 | The handler's new state and result are the step `Initialize` from the old state: creates Config and vault once, else fails and changes nothing. |
| `VaultProgram.Vault.Deposit` | programs/yieldfy/src/deposit_ix.rs:53-138 | The handler, guards in the program's order, is exactly the step `Deposit`; every failure leaves the state unchanged. |
| `VaultProgram.Vault.Withdraw` | programs/yieldfy/src/withdraw_ix.rs:40-104 | The handler is exactly the step `Withdraw`; no pause check, every failure leaves the state unchanged. |
| `VaultProgram.Vault.Rebalance` | programs/yieldfy/src/rebalance.rs:32-62 | The handler is exactly the step `Rebalance`. |
| `VaultProgram.Vault.SetPaused` | programs/yieldfy/src/admin.rs:21-31 | The handler is exactly the step `SetPaused`. |
| `VaultProgram.Vault.SetCap` | programs/yieldfy/src/admin.rs:33-52 | The handler is exactly the step `SetCap`, with its two zero checks after the authority check. |
| `VaultProgram.Vault.RotateAttestor` | programs/yieldfy/src/admin.rs:54-64 | The handler is exactly the step `RotateAttestor`. |
| `VaultProgram.Vault.RotateAuthority` | programs/yieldfy/src/admin.rs:70-82 | The handler is exactly the step `RotateAuthority`. |
| `VaultSafety.EveryStepIsSafe` | programs/yieldfy/src/deposit_ix.rs:72-130 | From any state that satisfies the invariant, every step of anybody keeps it, equals the same step over unbounded integers, and moves the vault's surplus and the receipts' shortfall only by what comes from outside the program. |
| `VaultSafety.RunFrom` | programs/yieldfy/src/deposit_ix.rs:72-130 | The same over every sequence of steps. |
| `VaultSafety.Solvency` | ops/scripts/watch-mainnet.ts:140-166 | In every reachable state: yXRP supply <= sum of receipts = sum of principals <= vault balance <= 2^64-1. |
| `VaultSafety.SaturationNeverClamps` | programs/yieldfy/src/withdraw_ix.rs:99-102 | Every run with saturating arithmetic ends in the same state as with unbounded integers, so no saturation ever clamps. |
| `VaultSafety.WatcherEqualities` | ops/scripts/watch-mainnet.ts:154-166 | After any run the vault balance is the sum of principals plus what was donated, the sum of receipts is the supply plus what was burned outside; each of the watcher's equalities holds if and only if that amount is zero. |
| `VaultEntry.DepositSucceedsExactly` | programs/yieldfy/src/deposit_ix.rs:53-121 | In a reachable state a deposit succeeds if and only if accounts, pause, cap, venue, attestation and funds are in order: no balance and no supply can overflow. |
| `VaultEntry.DepositMovesExactly` | programs/yieldfy/src/deposit_ix.rs:72-130 | A deposit moves exactly the amount to the vault, mints exactly as much to the receipt account, credits exactly that user's position in venue 0, and touches nothing else. |
| `VaultEntry.RebalanceChangesOnlyTheVenue` | programs/yieldfy/src/rebalance.rs:32-53 | A rebalance goes through if and only if unpaused, for the owner, to another venue and attested; it then changes only venue and time of that position. |
| `VaultEntry.DepositTakesKaminoOnly` | programs/yieldfy/src/deposit_ix.rs:60-70 | With the optimizer's attestation of some venue in the transaction, a deposit passes its guards if and only if that venue is Kamino and the program runs, the amount is within the cap, the venue asked for is 0 and key, slot, place and age are in order. |
| `VaultEntry.RebalanceTakesItsVenueOnly` | programs/yieldfy/src/rebalance.rs:32-46 | A rebalance to venue 0, 1, 2 or 3 passes with the attestation of Kamino, Marginfi, Drift or Meteora, in that order, and with no other. |
| `VaultEntry.DepositRefusals` | programs/yieldfy/src/deposit_ix.rs:53-121 | Which error a refused deposit returns: accounts, pause, cap, venue, the attestation's own error, the token program's, in that order; and nothing changes. |
| `VaultEntry.WithdrawRefusals` | programs/yieldfy/src/withdraw_ix.rs:40-97 | Which error a refused withdrawal returns: accounts, recorded receipts, the token program's; and nothing changes. |
| `VaultEntry.RebalanceRefusals` | programs/yieldfy/src/rebalance.rs:32-46 | Which error a refused rebalance returns: accounts, pause, same venue, the attestation's own. |
| `VaultEntry.WithdrawUndoesDeposit` | programs/yieldfy/src/withdraw_ix.rs:40-104 | Withdrawing what was just deposited succeeds, whatever Config has become, if and only if the depositor may debit the account that got the receipt; it then restores both ledgers, the user's principal and receipts, and leaves everybody else's position alone, and otherwise changes nothing. |
| `VaultExit.WithdrawSucceedsExactly` | programs/yieldfy/src/withdraw_ix.rs:40-97 | In a reachable state a withdrawal succeeds if and only if the position covers it, the receipt account holds it and may be debited, and the destination exists: vault funds and overflow never stop it. |
| `VaultExit.WithdrawPaysExactly` | programs/yieldfy/src/withdraw_ix.rs:46-104 | A successful withdrawal to a non-vault account pays exactly the amount, burns as much, debits the position as much, and touches nothing else. |
| `VaultExit.WithdrawIgnoresConfig` | programs/yieldfy/src/lib.rs:60-65 | Replacing the whole Config (paused, cap, staleness, attestor, authority) changes neither result nor effect of a withdrawal. |
| `VaultExit.FirstExit` | programs/yieldfy/src/withdraw_ix.rs:40-104 | When a set of exits is covered, the first succeeds and leaves the rest covered. |
| `VaultExit.EveryoneCanExit` | programs/yieldfy/src/withdraw_ix.rs:40-104 | Any covered sequence of exits succeeds throughout; every destination receives exactly the sum withdrawn to it, every position is debited exactly what its user withdrew. |
| `VaultExit.CoverageIgnoresOrder` | programs/yieldfy/src/withdraw_ix.rs:40-44 | Whether exits are covered does not depend on their order. |
| `VaultExit.ExitFromAnyReachableState` | programs/yieldfy/src/withdraw_ix.rs:40-104 | From genesis, after any run, any covered exits all succeed in any order. |
| `VaultExit.EveryoneCanExitMeanwhile` | programs/yieldfy/src/lib.rs:60-65 | Covered exits all succeed and are paid in full with arbitrary steps of others in between: deposits of anybody, other users' withdrawals, admin steps, and whatever happens to accounts other than the receipt accounts still to be debited. |
| `VaultHoldings.HoldingsSurviveExactly` | AUDIT.md:60 | When a user's principal equals all the yXRP that the user holds, the next step, whichever it is, keeps the equality if and only if it fails, moves nothing, or keeps the user's deposits and withdrawals to the user's own accounts, everybody else's away from them, and lets nothing be burned from, transferred across or handed over across them. |
| `VaultHoldings.HoldingsMatchExactly` | AUDIT.md:60 | Along a run from genesis the equality with all the yXRP that the user holds is kept at every point if and only if every step does that. |
| `VaultHoldings.ForeignDepositBreaksTheMatch` | programs/yieldfy/src/deposit_ix.rs:37-38 | A deposit into somebody else's receipt account moves the principal ahead of the user's holdings by its amount. |
| `VaultReceipts.MatchSurvivesExactly` | programs/yieldfy/src/deposit_ix.rs:107-130 | For a single receipt account: when its balance equals a user's principal, the next step keeps that if and only if it fails, moves nothing, or uses that account for that user and nothing else. |
| `VaultReceipts.MatchThroughoutExactly` | programs/yieldfy/src/deposit_ix.rs:107-130 | For a single receipt account: along a run from genesis its balance equals the principal at every point if and only if every step that goes through and moves anything uses it for the user and nothing else. |
| `VaultReceipts.DedicatedAccountMatches` | programs/yieldfy/src/withdraw_ix.rs:46-102 | If a user's deposits and withdrawals all use one receipt account that nothing else touches, its balance equals principal and receipts after every run. |
| `VaultReceipts.DepositElsewhereBreaksTheMatch` | programs/yieldfy/src/deposit_ix.rs:37-38 | A nonzero deposit that names another receipt account leaves the principal ahead of the balance by its amount. |
| `VaultWitness.DepositElsewhere` | AUDIT.md:60 | A run of `initialize` and one deposit, into another's receipt account, after which the user has principal and no yXRP, and the withdrawal of the deposit is refused. |
| `VaultWitness.DonationBreaksTheFirstEquality` | ops/scripts/watch-mainnet.ts:154-158 | A run of `initialize` and one transfer to the vault after which the vault holds more than the sum of principals. |
| `VaultWitness.BurnBreaksTheSecondEquality` | ops/scripts/watch-mainnet.ts:162-166 | A run of `initialize`, a deposit and a burn by the holder after which receipts exceed the yXRP supply. |
| `VaultWitness.PayingTheVaultBreaksTheFirstEquality` | programs/yieldfy/src/withdraw_ix.rs:25-26 | A run of `initialize`, a deposit and a withdrawal that names the vault as destination after which the vault holds more than the sum of principals. |
| `VaultGovernance.ConfigHistory` | programs/yieldfy/src/admin.rs:8-82 | Along every run each change of Config is signed by the authority in force at that point; mints and bump are those of the start for ever. |
| `VaultGovernance.AuthorityStaysExactly` | programs/yieldfy/src/admin.rs:66-82 | A key stays the authority at every point of a run if and only if none of the steps is its own signed rotation to another key. |
| `VaultWitness.AuthorityChanges` | programs/yieldfy/src/admin.rs:66-82 | A run of `initialize` and one rotation after which the new authority can pause and the old one is refused. |
| `VaultGovernance.InitializedOnce` | programs/yieldfy/src/lib.rs:32-43 | `initialize` records exactly its arguments, unpaused; after any further run it is refused and mints and bump are still those. |
| `VaultGovernance.PausedStep` | programs/yieldfy/src/deposit_ix.rs:55 | While paused, a step that does not clear the pause changes no venue and no set of positions; principals fall only by withdrawals, yXRP only disappears. |
| `VaultGovernance.PausedSegment` | programs/yieldfy/src/admin.rs:21-31 | Over any paused segment each principal falls by exactly what its user withdrew, no venue changes, and the yXRP supply falls by exactly what was withdrawn and burned. |
| `Token.TransferSound` | programs/yieldfy/src/deposit_ix.rs:73-83 | On a sound ledger a transfer succeeds if and only if authorised and funded (the target cannot overflow), and conserves the sum of balances. |
| `Token.MintSound` | programs/yieldfy/src/deposit_ix.rs:110-121 | Minting succeeds if and only if the supply stays in 64 bits, and keeps supply = sum of balances. |
| `Token.BurnSound` | programs/yieldfy/src/withdraw_ix.rs:47-57 | Burning succeeds if and only if authorised and funded, and keeps supply = sum of balances. |
| `Attestation.Scan` | programs/yieldfy/src/attest.rs:37-48 | The index found is that of an ed25519 instruction with none before it, below 16; none found means none among the first 16. |
| `Attestation.Verify` | programs/yieldfy/src/attest.rs:25-76 | The scanning loop and early exits compute the verdict function. |
| `Attestation.AcceptanceIsExact` | programs/yieldfy/src/attest.rs:25-76 | Accepted if and only if the sysvar is the real one, now <= slot + staleness over unbounded integers, and the first ed25519 instruction is among the first 16, has at least 121 bytes, carries the attestor's key and the message (venue, slot). |
| `Attestation.DataCheckIsExact` | programs/yieldfy/src/attest.rs:58-74 | The byte checks pass if and only if bytes 16..48 are the key, bytes 112..121 the message, and the slot is not stale. |
| `Attestation.DataRefusals` | programs/yieldfy/src/attest.rs:58-74 | Which error an instruction gets: too short, another key, another venue, and only then another slot or a stale one. |
| `Attestation.VerdictIsOnTheFirst` | programs/yieldfy/src/attest.rs:32-49 | The verdict is the check of the first ed25519 instruction of the first 16; a false sysvar or none is refused as missing. |
| `Attestation.StalenessIsPermanent` | programs/yieldfy/src/attest.rs:70-74 | Under a later clock a verdict stays the same, or goes from accepted to stale, the latter only past slot + staleness. |
| `Attestation.PrependingIsNeutral` | programs/yieldfy/src/attest.rs:21-24 | Non-ed25519 instructions put in front leave the verdict unchanged exactly while the attestation stays within index 15; beyond, it is refused as missing. |
| `Attestation.BuildAttestationMessage` | packages/sdk/src/attestation.ts:8-13 | The nine bytes are venue code modulo 256 and the slot little-endian; a slot outside 64 bits throws. |
| `Attestation.SignAttestation` | services/optimizer/src/attest.ts:40-53 | The optimizer signs the same nine bytes as the SDK rebuilds, and returns the venue's code, slot, signature and key. |
| `Attestation.AttestedVenue` | services/optimizer/src/score.ts:39-44 | What is attested for Kamino, Marginfi, Drift and Meteora is accepted for venue 0, 1, 2 and 3 of the on-chain program, each for its own number only. |
| `Attestation.EncodingIsAccepted` | packages/sdk/src/attestation.ts:18-25 | The SDK's instruction, anywhere in a transaction without earlier ed25519 instructions, is accepted for exactly its own key, venue and slot, at index at most 15, until slot + staleness. |
| `Attestation.MessageIsInjective` | packages/sdk/src/attestation.ts:8-13 | Two (venue, slot) pairs have the same nine bytes only if equal. |
| `Bytes.ToLEFromLE` | programs/yieldfy/src/attest.rs:65-67 | Little-endian writing undoes reading on every byte string. |
| `Bytes.ToLE` | services/rewards-indexer/src/merkle.ts:21-25 | Writing a word on k bytes gives k bytes that read back as the word. |
| `Bytes.FromLEConcat` | programs/yieldfy/src/attest.rs:65-67 | Little-endian: the first byte counts ones, and bytes after k others count 256^k. |
| `Bytes.WriteLE` | services/rewards-indexer/src/merkle.ts:22 | The in-place write at an offset leaves what is before and after it unchanged. |
| `Bytes.CopyInto` | packages/sdk/src/saber-distributor.ts:89-91 | The in-place copy at an offset leaves what is before and after it unchanged. |
| `Merkle.LeafBuffer` | services/rewards-indexer/src/merkle.ts:20-27 | The filled buffers concatenate to the 48-byte leaf; index or lamports outside 64 bits throw. |
| `Merkle.LeafFields` | services/rewards-indexer/src/merkle.ts:4 | Index, wallet and lamports are read back from offsets 0, 8 and 40. |
| `Merkle.LeafBytesInjective` | services/rewards-indexer/src/merkle.ts:20-27 | Equal leaf encodings come from equal (index, wallet, lamports). |
| `Merkle.BeforeIsLexicographic` | services/rewards-indexer/src/merkle.ts:50 | The comparison is the lexicographic order of bytes: the smaller byte at the first difference, or a proper prefix. |
| `Merkle.JoinIsSortedPair` | services/rewards-indexer/src/merkle.ts:50 | The builder's sorted pair and the verifier's join agree, whichever child comes first. |
| `Merkle.NodeHashesSmallerFirst` | services/rewards-indexer/src/merkle.ts:5-7 | A node's hash is that of its children's hashes, the lexicographically smaller one first, whichever side it is on. |
| `Merkle.NextLayerPairs` | services/rewards-indexer/src/merkle.ts:50 | Every layer pairs neighbours from the left, hashes the smaller first, and promotes an odd last one unchanged. |
| `Merkle.Binding` | services/rewards-indexer/src/merkle.ts:63-71 | For a tree of any shape and a proof of any length: whatever climbs to the root is a leaf, or a collision between something hashed in the tree and something hashed in the check is returned. |
| `Merkle.NextLayerAt` | services/rewards-indexer/src/merkle.ts:50 | One layer of proof leads from a node to its parent, or to itself when it is the odd last. |
| `Merkle.Completeness` | services/rewards-indexer/src/merkle.ts:50-58 | From every position of a layer of any length the emitted proof climbs to the root. |
| `Merkle.LayerRootIsTreeRoot` | services/rewards-indexer/src/merkle.ts:50-51 | The layered construction is a binary tree with exactly the given leaves, in order, and the same root. |
| `ClaimTree.BuildClaimTree` | services/rewards-indexer/src/merkle.ts:42-60 | One entry per input in order with index 0..n-1; throws exactly when some amount or index does not fit. |
| `ClaimTree.EveryProofVerifies` | services/rewards-indexer/src/merkle.ts:53-71 | For every leaf list, every emitted proof, as hex text, verifies against the emitted root text. |
| `ClaimTree.LookUpFindsTheLeaf` | services/rewards-indexer/src/merkle.ts:57 | Looking a leaf up by its hash gives its own position, even among equal wallets and amounts, unless two distinct encodings collide. |
| `ClaimTree.AcceptedClaimIsALeaf` | services/rewards-indexer/src/merkle.ts:63-71 | What `verifyClaim` accepts against the root of `buildClaimTree` is one of its leaves, index, wallet and amount, or a collision is returned; nothing is accepted against the empty tree. |
| `ClaimTree.HexProofRoundTrip` | services/rewards-indexer/src/merkle.ts:57 | Proofs survive their hex text. |
| `Hex.DecodeEncode` | services/rewards-indexer/src/saber-bundle.ts:62-65 | Decoding undoes encoding. |
| `Hex.EncodeIsTheNumber` | services/rewards-indexer/src/merkle.ts:51 | Hex text is two lower-case digits a byte and spells, most significant first, the number that the bytes spell. |
| `Hex.StripEncoded` | services/rewards-indexer/src/saber-bundle.ts:63 | Stripping 0x gives the bare hex, and leaves bare hex alone. |
| `Rewards.DualGate` | packages/sdk/src/rewards.ts:61-69 | With positive minimums a score is positive if and only if both are met. |
| `Rewards.SharesSumToOne` | packages/sdk/src/rewards.ts:98-118 | Shares sum to exactly 1 and rewards to exactly the pool when anyone is eligible, else both to 0. |
| `Rewards.SharesInRange` | packages/sdk/src/rewards.ts:50-51 | Every share is in [0, 1], positive exactly for the eligible, and stays with its wallet. |
| `Rewards.RewardsAreProRata` | packages/sdk/src/rewards.ts:104-115 | Any two rewards stand to one another as the two scores. |
| `Rewards.WhalesAreDampened` | packages/sdk/src/rewards.ts:9-17 | In one distribution, c times the tokens and d times the vault value are paid exactly c^alpha * d^beta times as much, and with exponents of at most one no more than c * d times as much. |
| `Rewards.RewardsAreWorthTheRate` | packages/sdk/src/rewards.ts:77-118 | The USD values of all rewards sum to market cap times rate when anyone is eligible, else to 0. |
| `Snapshot.DecodeRecovers` | programs/yieldfy/src/state.rs:16-26 | The two offsets the indexer reads recover owner and principal from any serialized Position. |
| `Snapshot.FetchVaultPositions` | services/rewards-indexer/src/snapshot.ts:69-88 | The loop decodes every account, in order. |
| `Snapshot.FetchTokenHoldings` | services/rewards-indexer/src/snapshot.ts:19-48 | The loop yields, per owner, the sum of readable nonzero balances over the divisor, and exactly their owners as keys, in order of first appearance. |
| `Snapshot.CountedIsRaw` | services/rewards-indexer/src/snapshot.ts:33-45 | What is credited to an owner, and in all, is the sum of the readable raw balances divided by the divisor. |
| `Snapshot.AppearedInOrder` | services/rewards-indexer/src/snapshot.ts:45 | Owners are listed in the order in which they are first mentioned. |
| `Snapshot.BuildParticipants` | services/rewards-indexer/src/snapshot.ts:95-114 | One row per wallet in the union, holders first in their order, then owners of positions in order of first appearance, each with its holdings and its summed principal at the price. |
| `Snapshot.NothingLost` | services/rewards-indexer/src/snapshot.ts:95-114 | Summing per distinct wallet over all credits gives the sum of the credits. |
| `Snapshot.JoinConservesValue` | services/rewards-indexer/src/snapshot.ts:104-113 | The rows' vault values sum to the price times all principal. |
| `Snapshot.JoinConservesHoldings` | services/rewards-indexer/src/snapshot.ts:109-113 | The rows' holdings sum to all balances that were counted. |
| `VaultSnapshot.SnapshotIsBacked` | services/rewards-indexer/src/snapshot.ts:69-114 | For the position accounts of any state of the vault that keeps the invariant, the rows' vault values sum to the price of the sum of principals, and to at most the price of the vault's balance. |
| `Epoch.RunEpoch` | services/rewards-indexer/src/epoch.ts:36-109 | Returns and writes exactly the record made from the snapshot of the given accounts under the next id, or throws and writes nothing. |
| `Epoch.RowsAreRaw` | services/rewards-indexer/src/snapshot.ts:95-114 | In the snapshot of a run each row holds the wallet's raw token balances over the divisor and is worth the price of its raw principal over 10^6. |
| `Epoch.SnapshotConserves` | services/rewards-indexer/src/epoch.ts:49-58 | Over all rows, holdings times the divisor are the sum of all readable raw balances, and vault values the price of all raw principal over 10^6. |
| `Epoch.RecordKeepsTheRun` | services/rewards-indexer/src/epoch.ts:88-106 | The record keeps id, times, slot and prices of its run; its pool is market cap times rate in USD and that over the SOL price in SOL; it counts all rows, keeps their order, and is unpublished. |
| `Epoch.CollectClaims` | services/rewards-indexer/src/epoch.ts:76-85 | The loop computes the claims map and the total of the tree's leaves. |
| `Epoch.ClaimsAreTheLeaves` | services/rewards-indexer/src/epoch.ts:76-85 | With distinct wallets the claims map is a bijection with the leaves: each under its wallet, unchanged, and no other key. |
| `Epoch.ClaimsCountAndTotal` | services/rewards-indexer/src/epoch.ts:76-85 | The number of keys is the number of leaves, and the amounts in the map sum to the total. |
| `Epoch.ClaimableKeepsDistinct` | services/rewards-indexer/src/epoch.ts:68 | Filtering keeps wallets distinct and adds none. |
| `Epoch.ClaimableKeepsOrder` | services/rewards-indexer/src/epoch.ts:67-68 | Exactly the claimable scores become leaves, in their order, so that order decides the indices. |
| `Epoch.MadeEpochIsBuilt` | services/rewards-indexer/src/epoch.ts:67-106 | From rows with distinct wallets, the record's root, claims and total are those of the tree over its claimable scores. |
| `Epoch.ClaimableIsThePool` | services/rewards-indexer/src/epoch.ts:68 | As soon as anyone can claim, the claimable rewards sum to the whole pool. |
| `Epoch.LamportConservation` | services/rewards-indexer/src/epoch.ts:60-102 | The total is at most the pool in lamports and, with n >= 1 claimants, at least that minus (n-1); with none it is 0. |
| `Epoch.FittingPoolIsMade` | services/rewards-indexer/src/epoch.ts:67-97 | If the pool computed from the market and the number of rows fit in 64 bits, no leaf throws and the epoch is made. |
| `Storage.NameRoundTrip` | services/rewards-indexer/src/storage.ts:47-49 | Parsing a printed file name gives the id for every id, past six digits too, and no epoch file is `latest.json`. |
| `Storage.NameIsPadded` | services/rewards-indexer/src/storage.ts:47-49 | Names are `epoch-`, the id on six digits, or on its own ones from a million on, and `.json`. |
| `Storage.SortIsAPermutation` | services/rewards-indexer/src/storage.ts:87 | Sorted ids ascend and are a permutation of the parsed ones. |
| `Storage.ListingOfRegular` | services/rewards-indexer/src/storage.ts:80-88 | In a directory holding the epochs 0..n-1 the listing is 0..n-1 and the next id is n, whatever order the names come in. |
| `Storage.EpochStorage.Write` | services/rewards-indexer/src/storage.ts:55-60 | Writes the numbered file and `latest.json` and nothing else. |
| `Storage.EpochStorage.Read` | services/rewards-indexer/src/storage.ts:62-69 | Returns the numbered record or nothing. |
| `Storage.EpochStorage.ReadLatest` | services/rewards-indexer/src/storage.ts:71-78 | Returns the last record written or nothing. |
| `SaberCodec.BuildNewDistributorIx` | packages/sdk/src/saber-distributor.ts:77-106 | The moving-offset writes fill the 57 bytes exactly; throws on a root that is not 32 bytes or caps outside 64 bits. |
| `SaberCodec.NewDistributorRoundTrip` | packages/sdk/src/saber-distributor.ts:86-93 | A reader at fixed offsets recovers root and both caps. |
| `SaberCodec.BuildClaimIx` | packages/sdk/src/saber-distributor.ts:145-180 | The writes, the loop over siblings included, fill the buffer exactly; throws on values outside 64 bits or entries that are not 32 bytes. |
| `SaberCodec.CopySiblings` | packages/sdk/src/saber-distributor.ts:161-164 | The loop appends all siblings after what was there. |
| `SaberCodec.ClaimRoundTrip` | packages/sdk/src/saber-distributor.ts:153-164 | A length-checking reader recovers index, amount and all siblings, for any list shorter than 2^32. |
| `SaberCodec.ProofToBytes` | packages/sdk/src/saber-distributor.ts:132-143 | Succeeds if and only if every entry is 32 bytes, and keeps them in order. |
| `SaberCodec.ProofSpellings` | packages/sdk/src/saber-distributor.ts:128-137 | Bare hex, 0x hex and raw bytes of the same siblings give the same result. |
| `SaberBundle.CapsMatchTheTree` | services/rewards-indexer/src/saber-bundle.ts:55-94 | For a record built from leaves that passes the skip test, the builder throws if and only if the sum or the count exceeds 64 bits; otherwise the four instructions fund the distributor they create with the sum of all leaves and cap it at that sum and that count, under the tree's root. |
| `SaberBundle.BuiltNumbers` | services/rewards-indexer/src/epoch.ts:76-102 | The stored total, the key count, the sum over the map and the root text of a built record are those of its leaves. |
| `SaberBundle.OversizedTotalThrows` | services/rewards-indexer/src/saber-bundle.ts:90-93 | A market at which two equal holders make a storable record that passes the skip test and makes the builder throw. |
| `SaberBundle.FittingPoolIsPublishable` | services/rewards-indexer/src/saber-bundle.ts:55-94 | If the pool computed from the market and the number of rows fit in 64 bits, the epoch is made and is either skipped or its bundle is built. |
| `SaberPublisher.PublishEpochToSaber` | services/rewards-indexer/src/saber-publisher.ts:45-141 | Skips, throws or proposes by the stated rules; the bundle is on chain exactly when the transaction was sent, and the record is written with its saber fields set exactly when it was confirmed as well. |
| `SaberPublisher.RecordNamesTheBundle` | services/rewards-indexer/src/saber-publisher.ts:126-140 | When a publication goes through, record and reply both name the distributor that the bundle creates and the base it is derived from; nothing else in the record changes. |
| `SaberPublisher.ResultIsExact` | services/rewards-indexer/src/saber-publisher.ts:51-59 | Which answer a publication gets: already published, empty pool, proposed, or an error. |
| `PublishedRecords.PublishedRecordsNameTheirDistributor` | services/rewards-indexer/src/saber-publisher.ts:126-132 | Behind every record that a run of the server leaves published stands one of its publication calls that went through, and the record names the distributor and base of that call's bundle, with the root, claims and total the bundle was made from. |
| `ProposalRuns.ProposalsCounted` | services/rewards-indexer/src/saber-publisher.ts:119-132 | Over any calls and restarts, the proposals that reach the chain for an epoch are its unconfirmed ones plus one if it became published. |
| `ProposalRuns.AtMostOneProposal` | services/rewards-indexer/src/saber-publisher.ts:51-53 | From an empty directory an epoch gets at most one proposal if and only if none stays unconfirmed, or a single one does and the epoch is never published. |
| `ProposalRuns.TwoProposals` | services/rewards-indexer/src/saber-publisher.ts:119-132 | A run with one epoch, published twice because the first confirmation was lost, after which two proposals are on chain. |
| `ClaimRuns.EveryRunIsFunded` | packages/sdk/src/saber-distributor.ts:68-75 | Every sequence of attempts keeps the distributor funded, and pays only published leaves, each index at most once, exactly its amount to its wallet. |
| `ClaimRuns.UnclaimedLeafIsPayable` | packages/sdk/src/saber-distributor.ts:71-74 | In a funded distributor neither cap nor funds block a published unclaimed leaf. |
| `ClaimRuns.VerifierIsSound` | services/rewards-indexer/src/merkle.ts:5-7 | Without collisions the distributor's proof check passes only for published leaves. |
| `ClaimRuns.DeployedIsFunded` | services/rewards-indexer/src/saber-bundle.ts:77-94 | Executing the bundle leaves a distributor with the tree's root, both caps and funds equal to the sum and the count. |
| `ClaimRuns.ServedClaimIsPayable` | services/rewards-indexer/src/server.ts:107-119 | The claim made from a wallet's stored entry (index, decimal amount, hex proof) is paid while its index is unclaimed. |
| `ClaimRuns.PublishedClaimsAreFullyFunded` | services/rewards-indexer/src/saber-bundle.ts:55-94 | For the distributor of a published record and any attempts: paid plus left is `totalLamports`, payments are published leaves, each once and exactly, and every unclaimed leaf can still be claimed from the record. |
| `Indexer.Server.constructor` | services/rewards-indexer/src/server.ts:76-84 | A server started on a directory is the restart step: the files as they are, the counters at zero. |
| `Indexer.Server.RunEpochHandler` | services/rewards-indexer/src/server.ts:167-193 | The handler is exactly the run step of the store machine, on rows with distinct wallets that join the accounts read from the chain. |
| `Indexer.Server.PublishHandler` | services/rewards-indexer/src/server.ts:139-163 | The handler is exactly the publish step: not configured, unknown epoch, skipped, thrown or proposed. |
| `Indexer.Server.ClaimHandler` | services/rewards-indexer/src/server.ts:107-137 | Returns the wallet's entry with id and root of the record asked for, and for the latest also its distributor, or nothing. |
| `IndexerSafety.ServesTheEpochAskedFor` | services/rewards-indexer/src/server.ts:107-137 | A wallet gets a reply about epoch `id` if and only if that epoch is stored and has its claim, and it is that claim with that record's id and root; without an id it is about the record last written and names its distributor. |
| `IndexerSafety.ServesTheEpochAskedForAfter` | services/rewards-indexer/src/server.ts:107-137 | The same in every reachable store, where the reply without an id agrees with the one about the epoch it names. |
| `IndexerSafety.RepliesAreExact` | services/rewards-indexer/src/server.ts:139-193 | Which reply each call gets, and that all but a run and a confirmed publication leave files and counters as they are. |
| `IndexerSafety.EveryRunKeepsTheStore` | services/rewards-indexer/src/server.ts:139-193 | From any store of n epochs and any counters, any interleaving of run and publish calls and restarts keeps the ids exactly 0..m-1, `latest.json` equal to the file of its own id, and changes a stored record at most by setting its unset saber fields; between restarts the counters rise by the epochs added and the epochs published. |
| `IndexerSafety.EveryRecordIsDustBounded` | services/rewards-indexer/src/epoch.ts:97-102 | In every reachable store every record's total is within its pool in lamports and short of it by less than a lamport per claim. |
| `IndexerSafety.ServedClaimsVerify` | services/rewards-indexer/src/server.ts:107-137 | After any calls and restarts from an empty directory every served claim verifies, with its stored index and amount, against the root served with it. |
| `IndexerSafety.PublicationsAreFullyFunded` | services/rewards-indexer/src/server.ts:139-163 | After any calls and restarts from an empty directory, a publication that goes through is of a record built from leaves, its total is within its pool, and its distributor pays as `PublishedClaimsAreFullyFunded` says. |
| `RunGuard.PromiseKeptExactly` | services/rewards-indexer/src/server.ts:165-174 | In every store, runs are refused whenever the newest epoch is younger than the interval if and only if the record last written did not end before the newest epoch. |
| `RunGuard.PromiseOverRuns` | services/rewards-indexer/src/server.ts:139-174 | Along any calls and restarts that promise holds at every point if and only if no publication goes through for an epoch that ended before the newest. |
| `GuardWitness.DoubleDistribution` | services/rewards-indexer/src/server.ts:165-174 | From an empty directory: run, run an interval later, publish epoch 0; a third run one millisecond after epoch 1 ended goes through. |
| `RunGuard.RunningMovesTheGuard` | services/rewards-indexer/src/server.ts:167-174 | After a run, the next is refused exactly until the interval has passed since its end. |
| `Amount.ParseUndoesFormat` | apps/dashboard/src/components/dashboard/views/PositionsView.tsx:7-16 | Parsing the printed amount gives the amount, for every natural number, through grouping, padding and trimming. |
| `Amount.ParsesExactly` | apps/dashboard/src/components/dashboard/views/DepositView.tsx:30-41 | Separators dropped, exactly digits, maybe a dot and digits, and maybe another dot and anything parse, to the whole part and six digits of the fraction. |
| `Amount.GroupsOfThree` | apps/dashboard/src/components/dashboard/views/PositionsView.tsx:10-12 | Counted from the right exactly every fourth character of the whole part is a comma, and it does not begin with one. |
| `Amount.PrintedText` | apps/dashboard/src/components/dashboard/views/PositionsView.tsx:8-15 | The fraction follows a dot if it is not zero: its six digits without exactly the zeros at their end. |
| `Amount.PrintInGroups` | apps/dashboard/src/components/dashboard/views/PositionsView.tsx:10-12 | A number printed in groups of three digits is the number printed. |
| `Amount.SanitizedParses` | apps/dashboard/src/components/dashboard/views/DepositView.tsx:45-71 | The sanitizer's output parses if and only if the typed integer part is finite as a double, and then to the typed decimal truncated to 6 places and capped at 10^12 base units. |
| `Amount.SanitizerCases` | apps/dashboard/src/components/dashboard/views/DepositView.tsx:58-70 | The text put back is empty, the ceiling, or the typed whole part without leading zeros, with the dot kept if one was typed and the first six digits after it. |
| `Amount.SanitizedIsFixed` | apps/dashboard/src/components/dashboard/views/DepositView.tsx:45-71 | The output is a fixed point of the sanitizer if and only if the typed integer part is finite as a double. |
| `Amount.LongNumberIsLost` | apps/dashboard/src/components/dashboard/views/DepositView.tsx:60-61 | The digits of any number too large for a double give the empty text, which does not parse and sanitizes to zero. |
| `Amount.SixDigitsTruncate` | apps/dashboard/src/components/dashboard/views/DepositView.tsx:35 | Cutting and padding a fraction to six digits is truncation to millionths of its value on all digits. |
| `Subscriptions.MemorySubscriptionStore.List` | services/optimizer/src/subscription-store.ts:17 | Lists every stored subscription once. |
| `Subscriptions.MemorySubscriptionStore.Get` | services/optimizer/src/subscription-store.ts:18 | Looks the id up in the map. |
| `Subscriptions.MemorySubscriptionStore.Save` | services/optimizer/src/subscription-store.ts:19 | Maps the id to the subscription and changes nothing else. |
| `Subscriptions.MemorySubscriptionStore.Delete` | services/optimizer/src/subscription-store.ts:20 | Removes the id and tells whether it was there. |
| `Subscriptions.RedisSubscriptionStore.List` | services/optimizer/src/subscription-store.ts:31-36 | Through the id set and one lookup per id: lists every stored subscription once. |
| `Subscriptions.RedisSubscriptionStore.Get` | services/optimizer/src/subscription-store.ts:38-47 | As the in-memory store on the same map. |
| `Subscriptions.RedisSubscriptionStore.Save` | services/optimizer/src/subscription-store.ts:49-54 | As the in-memory store, and keeps set and keys in step. |
| `Subscriptions.RedisSubscriptionStore.Delete` | services/optimizer/src/subscription-store.ts:56-62 | As the in-memory store, result included, and keeps set and keys in step. |
| `Subscriptions.ListingsAgreeUpToOrder` | services/optimizer/src/subscription-store.ts:31-36 | Two listings of the same map differ only in order. |
| `SubscriptionRuns.RunKeepsInv` | services/optimizer/src/subscription-store.ts:28-62 | Every interleaving of single commands of any calls keeps the invariant of set, keys, calls in progress and history. |
| `SubscriptionRuns.ListingUnderInterleaving` | services/optimizer/src/subscription-store.ts:31-54 | Under every interleaving a completed `list` has no duplicates, only saved records, and every subscription whose save had finished before it began and for which no delete was issued. |
| `SubscriptionRuns.DeletedIsGone` | services/optimizer/src/subscription-store.ts:56-62 | Once its save was over and both commands of a delete have run, in whatever order and among whatever others, a subscription is in neither structure for ever and no listing begun from then on returns it. |
| `SubscriptionRuns.FinishedIsSettled` | services/optimizer/src/subscription-store.ts:49-54 | A finished save is over: no call in progress can bring its id back. |

## Left out

- IndexerSafety.EveryRunKeepsTheStore: each handler and each write of the two files is one step; overlapping handlers and a crash between the two files are not modelled.
- Merkle.Completeness: `merkletreejs` is not part of the repository; the layers, the promoted odd node, the lookup of a leaf by hash and the sorted pairs are modelled from its documented behaviour, and siblings that are not hex text are read only as far as they are hex.
- ClaimRuns.EveryRunIsFunded: the distributor program is not part of the repository; it is the environment that pays an unclaimed index whose proof verifies, within both caps and its funds.
- SubscriptionRuns.ListingUnderInterleaving: each id is saved at most once, as the service draws fresh random ids; a Redis command never fails, and JSON text is identified with the record.
- Rewards.SharesSumToOne: over reals, not IEEE doubles, and needs minimums that are not negative, which the server never overrides; the dust bounds in the store need the same.
- Amount.SanitizedParses: `Number` of a digit string is compared exactly with the ceiling and the overflow threshold, which rounding to a double does not change.
- VaultModel.ApplyInitialize: rent and the payer are not modelled, and neither are the events that the instructions emit.
- Position and vault addresses: derived addresses are keys; a position is keyed by its user and the bump it stores is the canonical one.
- Token programs: approved amounts of delegates are a yes or no per call; freezing, closing and native accounts are not modelled, and a mint has no freeze authority.
- The ed25519 instruction: that the runtime has checked its signature, and its count and offsets, which the program does not read.
- Program ids and discriminators: given as their bytes; base58 and the hashes behind them are not computed.
- Venue calls: both are no-ops that return Ok.
- Base58, JSON and address derivation: identified with the bytes or values they stand for, or abstract functions; wallets as keys of a JavaScript object are plain map keys.
- Epoch ids in URLs that are not natural numbers, and totals that are not plain decimal text: the store never holds such records.
- RPC, prices, the clock, Redis, Squads and the file system: inputs, or single steps that succeed or fail; a proposal is on chain once sending it has returned.
- Snapshot.FetchVaultPositions: takes accounts of the Position size only, as the RPC filter returns no others.
- Scoring of venues (services/optimizer/src/score.ts), webhook delivery, price oracles, the rolling mean, ops scripts, metrics gauges and the user interface: little state, or plumbing.
