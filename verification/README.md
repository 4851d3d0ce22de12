# Chain state, feeds and pages of a Cardano explorer: a verified model

A Dafny model of the server that keeps an in-memory picture of the chain beside a node and serves
live feeds from it, and of the address codec of its web client. `dafny verify dfyconfig.toml` checks
the whole project.

## What is modelled

- **Versioned state** (`Chain`, `State`, `Runs`, `Reachable`). A block is a function from one snapshot
  to the next; the state keeps at most 2160 snapshots, drops those above a rollback's slot and starts
  over when none is left. `State.Valid` ties every retained snapshot to the fold of the surviving
  blocks, so whatever holds of folds holds of every reachable state. `Reachable` proves that each
  snapshot is a set of redundant views of simple facts: the unspent outputs and the certificate
  histories always, the slot each asset was minted in and the owners of the handle tokens exactly
  under stated conditions on the blocks.
- **The views themselves** (`Held`, `Ledger`, `Unspent`, `Stakes`, `Rules`, `Delegations`, `RunStarts`,
  `Handles`). What a block is read as is told from the fields of its transactions, and the unspent
  outputs follow the ledger's rule one transaction after the other. Holdings leaves are packed into
  two 64-bit halves; balances and holdings are credited before they are debited; signed stake deltas,
  the two delegation maps with run starts, the delegated total and the three handle maps follow.
- **The feed index** (`FeedLog`, `Feed`, `KeptLog`, `Significance`, `PageChange`, `Rendered`,
  `Epochs`). A class whose lists and position indexes are views of one log of events; additions,
  rollbacks and prunes change the log, and every reader answers from it. Over a run each surviving
  block's events are cut at the highest boundary the index was pruned to since the block was recorded.
  `Rendered` compares what the index lists with what a page keeps of a block it fetches again, and
  `PageChange` the stake changes shown with the stake before and after.
- **Stopping and resuming** (`HoldingsWire`, `KeyOrder`, `Restart`). The snapshot written lies behind
  the tip while the index written is the tip's, and the state runs on before it stops. The holdings
  go through a grouped, length-prefixed token stream and its streaming reader.
- **Pages** (`Paging`, `BackwardWalk`, `History`, `Tiles`, `Owned`). Keyset pages merged from three
  sources, the backward stake walk with its cursor against the snapshots of the chain, and live tile
  changes between snapshots.
- **The end of catch-up** (`CatchUp`). Source and sink as two processes whose every flag store and
  load is a step, over a FIFO port.
- **Bech32** (`Words`, `Polymod`, `Bech32`, `Bip173`, `BitPrefix`). The checksum and bit regrouping of
  BIP-173 ("Bech32" and "Checksum" under "Specification"), with accumulators as the 32-bit words the
  code uses; its steps as division by the generator polynomial; two strings of the standard's "Test
  vectors"; and the bit-prefix match that stands in for a string-prefix match.

## What the model takes as given

- Outputs: each transaction's inputs resolve to outputs unspent when its turn comes, references of
  outputs are fresh and distinct, quantities positive (`Rules.Lawful`), totals per leaf below 2^98, and
  the outputs applied are a listing of the map gathered from the block (`Chain.Block.Listed`). For mint
  slots, slots lie below 2^30.
- Slots rise strictly along the surviving chain, and a node resumed from a point first rolls back to it.
- Between a save and the stop no rollback reaches below the saved slot or the history
  (`Restart.StaysAbove`): the code saves again after a reset (server/src/sink.rs:45-57), and a node has
  nothing to hand over from a point it rolled back.
- A transaction's hash is its own: the entries an index holds under the hashes of a block's
  transactions are the block's (`Rendered.HoldsEntries`).
- Database answers are inputs with stated contracts: the run-start query, the keyset queries (rows
  of one source newest first, slots not rising), the reward and withdrawal rows, the epoch's rewards.
- The structural difference of two persistent maps reports every changed key once (`Tiles.IsDiff`),
  asset ids have at least the 28 bytes of a policy, and a hash map is listed in some order.
- Loads and stores of the shared flags are sequentially consistent.

## Where the code falls short of what its comments say

- The backward walk of an older page fetches withdrawals without an upper bound
  (server/src/state/dbsync.rs:1640-1673) and leaves out only the page's own blocks
  (server/src/server/replay.rs:365-369), while the tests assume withdrawals below the cursor slot
  (server/src/server/replay.rs:1166-1203). `OlderPageExact` and `WholeWalkExact` give the exact
  conditions, `NthPageOff` the error.
- All leaves of an asset are said to share one mint slot, because every output asset comes from an
  input or is minted in the block (server/src/state/mod.rs:1146-1147, 1949-1953). Minting more of an
  outstanding asset into a new leaf without spending from an existing one breaks this
  (`UncarriedMintDiffers`); `BlockStamps` and `EverySnapshotStamped` give the exact condition.
- The slot comparison that ends catch-up (server/src/sink.rs:812-815) can succeed before everything the
  observed Await followed is applied, when a rollback lowers the published slot
  (`QueuedRollbackEndsEarly`: a fork during catch-up). `EarlyIffOverlooked` says for which behaviour of
  the source some interleaving does.
- The feed index covers for each block the five days before the highest slot applied since, not before
  the tip: after a short rollback across an epoch boundary the count of the current epoch can miss
  blocks (`RollbackAcrossBoundary`, exactly when: `EpochCountExact`), and a resumed index can differ
  from one that never stopped (`ShortRollbackSplits`, exactly when: `StopAndResume`).
- A vote in a transaction that failed its scripts is left out of the index but shown by the page
  (`IndexedIffRendered`, `VoidVoteDiffers`); the magnitudes recorded leave out the certificates a
  page's stake change counts, which only the union of the recorded lists makes up for
  (`DecisionsAgree`, `CertificateDiffers`).
- A handle that arrives in a block and is spent for good in the same block stays resolved to the owner
  it last arrived at (server/src/state/mod.rs:1051-1064; `OwnersFollow`, `MintedAndBurnedStays`).
- The first snapshot a live page observes yields no delta, so a page loaded before it keeps what
  changed in between (`LivePageExact`).
- The stake change a page shows of a transaction counts a joining delegator's stake before the block and
  leaves out what the transaction itself moves for it (`ShownChangeExact`, `FeeOfJoiningMissed`).
- A page of exactly the limit, all rows of one source, has a cursor although nothing is left
  (`WhenMore`).
- The adjustment of the delegated total miscounts a credential that is deregistered and delegated
  again in one block.

## Model

| member | source | states |
|---|---|---|
| Polymod.Polymod | web/src/lib/bech32.ts:6-14 | the loop's checksum word is the fold of one linear step per value over 32-bit words |
| Polymod.StepLinear | web/src/lib/bech32.ts:8-12 | one step of the checksum is linear over exclusive-or, feedback constants included |
| Polymod.StepSeparates | web/src/lib/bech32.ts:8-12 | a step with a fixed value loses nothing: different words stay different |
| Polymod.ChecksumCloses | web/src/lib/bech32.ts:102-108 | appending the six computed symbols drives the checksum of any values to 1 |
| Polymod.BurstDetected | web/src/lib/bech32.ts:6-14 | two value lists that differ only inside a window of six places never have the same checksum |
| Bech32.HrpExpand | web/src/lib/bech32.ts:16-22 | of a prefix of n characters: 2n + 1 numbers, the n-th 0, the ones behind it below 32, and 32 times a number before it plus the one as far behind it is the character |
| Bech32.Checksum | web/src/lib/bech32.ts:102-108 | the six symbols are those the specification function computes from the closing word |
| Bech32.Encode | web/src/lib/bech32.ts:111-127 | regrouping with an accumulator that is never masked, then the checksum, spells the specified string |
| Bech32.ReadSymbols | web/src/lib/bech32.ts:31-36 | the values of the characters, or nothing at the first character outside the alphabet |
| Bech32.Hrp | web/src/lib/bech32.ts:27-38 | the prefix exactly when separator, length, alphabet and checksum are right |
| Bech32.Decode | web/src/lib/bech32.ts:40-69 | the bytes of the data part without its last six symbols; the checksum is not looked at |
| Bech32.RoundTrip | web/src/lib/bech32.ts:27-127 | for every prefix and byte string: encoding and reading back gives the prefix, checksum verified, and the bytes, exactly when the prefix is not empty |
| Bech32.BytesBack | web/src/lib/bech32.ts:56-67 | regrouping to five bits with padding and back to eight gives the same bytes for any byte string |
| Bech32.TypoDetected | web/src/lib/bech32.ts:27-38 | changing up to six neighbouring data characters of an encoded address to others is always noticed |
| Bech32.ChecksumUnique | web/src/lib/bech32.ts:27-38 | no other six symbols close the same prefix and data |
| Bech32.AcceptsExactly | web/src/lib/bech32.ts:27-38 | a string is accepted with a prefix exactly when that is not empty and the string is it, a separator, and data with the checksum of both |
| Bech32.Capitals | web/src/lib/bech32.ts:40-53 | the reader takes capitals for small letters; the validator refuses any capital in the data |
| Bech32.ReadsAnyChecksum | web/src/lib/bech32.ts:40-69 | whatever the last six symbols are the reader returns the bytes before them; fewer than six are read as nothing |
| Bip173.RowsAre | web/src/lib/bech32.ts:4-4 | the five constants are the multiples by 1, 2, 4, 8 and 16 of what the generator polynomial leaves of x^6, over the field of 32 elements |
| Bip173.StepDivides | web/src/lib/bech32.ts:6-14 | one step takes a remainder to that of it times x plus the value |
| Bip173.PolymodDivides | web/src/lib/bech32.ts:6-14 | the checksum of any values is the remainder by the generator polynomial of BIP-173 of the values after a leading one |
| Bip173.ShortString | web/src/lib/bech32.ts:27-38 | a string that BIP-173 lists as valid is accepted |
| Bip173.AlphabetString | web/src/lib/bech32.ts:27-38 | so is the one that carries the whole alphabet in order |
| BitPrefix.Bech32BitPrefix | server/src/server/delegators.rs:105-124 | the leading bits spelled by the characters, in whole bytes with a zero-filled last one, although the 32-bit accumulator shifts old bits out |
| BitPrefix.HasBitPrefixBits | server/src/server/delegators.rs:128-142 | byte comparison with a masked last byte is equality of the leading bits, and false when the payload is too short |
| BitPrefix.FilterExact | server/src/server/delegators.rs:105-142 | for a 29-byte reward payload the bit filter accepts a typed data part exactly when it is at most 46 characters and the address's data part starts with it |
| Words.ShiftIn | web/src/lib/bech32.ts:59-66 | shifting a value in below an unmasked accumulator appends its bits |
| Words.Literals | web/src/lib/bech32.ts:8-12 | the masks written as numbers are the words with that many low bits set |
| Words.GroupsOfSpell | web/src/lib/bech32.ts:40-69 | cutting a spelled bit string into groups gives the groups back |
| Delegations.ApplyDelegationChanges | server/src/state/mod.rs:2204-2235 | the loop over certificates computes the specified pair of maps |
| Delegations.ChangesKeepInverse | server/src/state/mod.rs:2204-2235 | after any list of certificates, repeated credentials included, a credential's target is t exactly when it is in t's delegator set |
| Delegations.LastCertificateWins | server/src/state/mod.rs:2218-2232 | a credential ends with the target of its last certificate of the block |
| Delegations.TargetsStay | server/src/state/mod.rs:2216-2231 | a target is listed exactly when it was before or some certificate names it: who ever had a delegator stays listed |
| Delegations.PoolLiveStake | server/src/state/mod.rs:2239-2266 | sum of stakes and rewards over the delegator set; absent for a pool that never had one |
| Delegations.PoolStakesAddUp | server/src/state/mod.rs:1511-1522 | delegator sets partition the delegated credentials: pool live stakes add up to the delegated stake |
| Delegations.DelegationStakeDelta | server/src/state/mod.rs:2174-2195 | the loop's adjustment is the sum of its signed terms |
| Delegations.DeltaExact | server/src/state/mod.rs:2170-2195 | the adjustment equals the change of the delegated sum, for all stakes and rewards, exactly when each credential that enters or leaves flips once and no other flips |
| Delegations.DeltaOff | server/src/state/mod.rs:2170-2195 | for any certificates the adjustment is the true change plus, for each credential named, its stake as often as it is counted beyond its crossing |
| Delegations.DistinctFlipOnce | server/src/state/mod.rs:2170-2195 | at most one certificate per credential suffices |
| Delegations.ReRegistrationMiscounts | server/src/state/mod.rs:2182-2193 | deregistering and delegating again in one block makes the adjustment wrong |
| RunStarts.RunStartKept | server/src/state/dbsync.rs:1202-1251 | from the query's answer for a past, the start slot and target kept per block are the query's answer for the whole history, several certificates of one block included |
| RunStarts.FromTheStart | server/src/state/mod.rs:2224-2228 | the same for maps kept from the first certificate on |
| RunStarts.BlockAsCerts | server/src/state/mod.rs:2204-2235 | applying a block's certificates is applying them one by one at the block's slot |
| Handles.ApplyHandleUpdates | server/src/state/mod.rs:1018-1064 | the loops over moves and spent handles compute the specified three maps |
| Handles.UpdatesKeep | server/src/state/mod.rs:1018-1098 | any moves, mints and burns keep the address lists the exact duplicate-free inverse of the handle map without empty lists, and the stake lists exact for the owners' credentials |
| Handles.ArrivesLast | server/src/state/mod.rs:1023-1036 | a handle that moves comes last in its new address's list; all other lists keep their order |
| Handles.HandleFor | server/src/state/mod.rs:1067-1071 | the first of the shortest handles of a key, nothing for a key without any |
| Handles.ShownAgree | server/src/state/mod.rs:1067-1071 | lists of the same handles show handles of one length, and the same one unless several are that short |
| Handles.ExactUnique | server/src/state/mod.rs:1105-1115 | two stake indexes exact for the same owners agree as sets |
| Handles.BuildHandleByStake | server/src/state/mod.rs:1105-1115 | rebuilt from the address lists in any order the stake index is exact |
| Handles.OwnersFollow | server/src/state/mod.rs:1018-1064 | a block takes the owners of the unspent handle tokens to the owners of the unspent handle tokens exactly when none of its handles both arrives in it and leaves for good |
| Handles.MintedAndBurnedStays | server/src/state/mod.rs:1051-1064 | a handle minted and burned in one block stays listed |
| HeldLeaf.Fields | server/src/state/mod.rs:240-272 | quantity and mint slot do not disturb each other across the two 64-bit halves, setters included, and determine the leaf |
| HeldLeaf.FieldsDetermine | server/src/state/mod.rs:227-272 | leaves with equal quantity and slot are equal |
| HeldLeaf.Halves | server/src/state/mod.rs:227-259 | the slot is the top 30 bits of the high half, the quantity everything below |
| Ledger.CredentialBack | server/src/pallas.rs:131-145 | an address yields a credential exactly when it was built as a base address with it as stake part, or as a reward address of it |
| Ledger.TokensListed | server/src/state/mod.rs:303-308 | with 28-byte policies an output's tokens carry, under policy followed by name, exactly the quantities its groups list |
| Ledger.DebitLeaves | server/src/state/mod.rs:1150-1162 | a debit leaves what exceeds it or nothing, drops a leaf left with nothing, and touches no other |
| Ledger.BalanceLeaves | server/src/state/mod.rs:1993-2000 | the same for an address balance |
| Ledger.ApplyUtxoAssets | server/src/state/mod.rs:1170-1198 | the nested loops bump one leaf per token in order |
| Ledger.SeedMintSlots | server/src/state/mod.rs:1947-1969 | for each asset the slot of the first prior leaf a consumed output names |
| Ledger.FirstSeedCounts | server/src/state/mod.rs:1957-1971 | the first input that names an asset held at its address decides its slot, whatever follows |
| Ledger.ApplyOutputs | server/src/state/mod.rs:1934-2011 | credits all produced outputs, then debits all consumed ones, on balances and holdings |
| Unspent.BlockShows | server/src/state/mod.rs:1934-2011 | balances and holdings stay the exact sums over the unspent outputs, and a key exists exactly when its sum is positive |
| Unspent.BlockStamps | server/src/state/mod.rs:1947-1969 | from books with one mint slot per asset, minted earlier: the next books carry one slot per asset, the slot of the block that brought it into existence, exactly when every new leaf of an outstanding asset has its asset spent from an existing leaf; otherwise no slots fit at all |
| Unspent.BooksDetermined | server/src/state/mod.rs:1934-2011 | books are determined by the unspent outputs and the mint slots |
| Unspent.BlockSlots | server/src/state/mod.rs:1143-1153 | every leaf a block leaves keeps the slot it had, or takes the seeded slot of its asset, or the block's |
| Unspent.OrderIrrelevant | server/src/state/mod.rs:1971-2011 | listing the produced outputs in any other order gives the same books; listing the inputs in another order does exactly when the seeded slots agree on the leaves without one, as they do with one slot per asset |
| Unspent.DebitsFirstMiscounts | server/src/state/mod.rs:1940-1946 | debiting first leaves a phantom balance for an output made and spent in one block |
| Unspent.UncarriedMintDiffers | server/src/state/mod.rs:1947-1953 | minting more of an outstanding asset without spending any of it breaks the one-slot rule |
| Stakes.CollectBlock | server/src/sink.rs:216-386 | in one pass, told from what each transaction declares: the outputs made, inputs taken, certificates with their transactions, withdrawals, votes and handle movements, in transaction order, of a transaction that failed its scripts only collateral, collateral return and handle movements; signed stake deltas; and all transactions as shown |
| Stakes.CertsDeclared | server/src/sink.rs:378-402 | the certificates read, of either side, are those the valid transactions declare, one transaction after the other, each with its transaction's hash |
| Stakes.SumsDeclared | server/src/sink.rs:256-376 | inputs, outputs and withdrawals are those of the valid transactions, and collateral and its return of the others |
| Stakes.TxHolders | server/src/sink.rs:256-366 | after a transaction a handle belongs to the last output of it that carries the handle; to nobody if it was only spent; otherwise to whom it did |
| Rules.AtOnce | server/src/state/mod.rs:1940-1946 | for transactions that each spend what is unspent when their turn comes, all outputs first and then all inputs leaves what they leave one after the other |
| Rules.LawfulIsValid | server/src/state/mod.rs:1940-1946 | so what the block's step rests on follows from its transactions one by one |
| Stakes.ApplyStakeChanges | server/src/state/mod.rs:2058-2062 | adding the deltas one by one |
| Stakes.DeltasAreNet | server/src/sink.rs:256-317 | a credential's deltas add up to what its outputs gained less what its inputs spent |
| Stakes.StakesFollow | server/src/state/mod.rs:2058-2062 | every credential's stake stays the lovelace of its unspent outputs |
| Stakes.StakeIsBalanceSum | server/src/state/mod.rs:1565-1584 | a credential's stake is the sum of the balances of its addresses |
| Chain.RewardsOnce | server/src/state/mod.rs:2064-2074 | along a surviving chain the rewards of each epoch entered are credited exactly once, withdrawals taken off |
| Chain.FirstBlockCreditsNothing | server/src/sink.rs:533-547 | with no epoch known the first block of a run credits nothing, as if its epoch had been known |
| Chain.UnansweredCreditsNothing | server/src/state/mod.rs:2064-2074 | a block without an answer for its epoch only takes off the withdrawals |
| Chain.BlockTargets | server/src/state/mod.rs:2216-2231 | after a block each credential has the target of its last certificate in a valid transaction, on either side |
| Chain.TotalFollows | server/src/state/mod.rs:2076-2085 | a block moves the total by the stake of the credentials that enter the delegated set less that of those that leave it, after the block, and by what it miscounts: nothing if each credential is named at most once |
| Chain.TotalDrifts | server/src/state/mod.rs:2076-2085 | over any run the total falls behind the delegated stake by exactly what credentials gained in blocks before which they were delegated, less what the blocks miscounted |
| Chain.EntriesTellChanges | server/src/sink.rs:421-476 | a delegation entry tells the target before and after the block and the pre-block stake, and is left out exactly for a re-delegation to the same target |
| Chain.EntriesConcat | server/src/sink.rs:421-476 | entries stand in the order of their certificates |
| Chain.EventsTellBlock | server/src/sink.rs:636-671 | every event recorded carries the block's slot, hash and number |
| Rendered.IndexedIffRendered | server/src/server/replay.rs:502-513 | a block shows something on a pool's or DRep's page exactly when its recorded stake changes, delegation entries or votes list it for the subject, or a vote in a transaction that failed its scripts does |
| Rendered.VoidVoteDiffers | server/src/sink.rs:226-234 | such a vote is shown on the page of a block the index does not list |
| Rendered.OverlaidSomewhere | server/src/server.rs:845-892 | a transaction of the block shows a delegation of the subject exactly when an entry of the block touches it |
| Chain.LogCut | server/src/state/feed_index.rs:284-324 | cutting a chain's events at a slot gives the events of the blocks up to the slot |
| Reachable.EverySnapshotSound | server/src/state/mod.rs:1909-2168 | every snapshot reached by blocks of lawful transactions shows the outputs those transactions leave unspent one after the other, agrees with the run-start query over the certificates they declare, and keeps both delegation books and the handle maps inverse |
| Reachable.BlockKeeps | server/src/state/mod.rs:1909-2168 | one such block keeps all of these |
| Reachable.SoundAddsUp | server/src/state/mod.rs:1511-1522 | in such a snapshot pool stakes add up and stakes are sums of balances |
| Reachable.LiveStakeIs | server/src/state/mod.rs:2237-2266 | after a run a credential's live stake is its unspent lovelace and its rewards before the run, less its withdrawals in valid transactions, with the rewards of each epoch entered once |
| Reachable.ListingIrrelevant | server/src/state/mod.rs:1971-1990 | the order in which each block's produced outputs are listed leaves no trace in any later snapshot |
| Reachable.EverySnapshotStamped | server/src/state/mod.rs:1947-1969 | all snapshots of a run carry one mint slot per asset exactly when every block spends from an existing leaf of each outstanding asset it makes a new leaf of, and then it is the slot the asset was minted in |
| Reachable.HandlesFollow | server/src/state/mod.rs:1018-1064 | all snapshots of a run resolve exactly the unspent handle tokens to their owners exactly when no block has a handle arrive and leave for good |
| State.State.ApplyBlock | server/src/state/mod.rs:1909-2168 | pushes the snapshot the block function gives, handles untouched, and trims to 2160 |
| State.State.UpdateHandles | server/src/sink.rs:702-719 | replaces only the handle maps of the newest snapshot |
| State.Record | server/src/sink.rs:636-671 | appends exactly the block's events, in order, told from the snapshot before it |
| State.State.HandleApply | server/src/sink.rs:628-719 | one block: events, prune, snapshot, handles; every boundary is raised to the block's, and an exact index stays exact exactly when the block records nothing below the highest boundary |
| State.State.Rollback | server/src/state/mod.rs:2313-2323 | false exactly when no retained snapshot is at or below the slot; otherwise the chain is cut to the blocks up to the slot and the index with it |
| State.State.HandleReset | server/src/sink.rs:34-60 | a rollback within the history cuts chain and index to the slot; a deeper one starts over from the rebuilt snapshot with an empty index |
| State.State.Reset | server/src/state/mod.rs:1840-1877 | one rebuilt snapshot and an empty index |
| State.State.CloneForSave | server/src/state/mod.rs:2357-2363 | the snapshot `depth` back, or the oldest, with a copy of the index |
| State.State.Restore | server/src/state/mod.rs:2328-2336 | history is the loaded snapshot with an exact stake index rebuilt from the address lists |
| State.BuildEntries | server/src/sink.rs:421-476 | the loop builds the specified delegation entries |
| State.CreditRewards | server/src/state/mod.rs:2069-2074 | adds every delta to its credential, whatever order the map yields |
| State.FeedStep | server/src/sink.rs:673-676 | a block and its prune keep an index that is the log from a floor on exact, exactly when it records nothing below the floor |
| State.State.ExactWhen | server/src/sink.rs:673-676 | the index is the surviving events from the highest boundary on exactly when no surviving block that recorded something lies between its own boundary and the highest |
| KeptLog.HeldGrows | server/src/sink.rs:636-676 | an index whose blocks are cut each at its own boundary stays one under another block's events and prune |
| KeptLog.HeldRollsBack | server/src/state/feed_index.rs:284-324 | and under a rollback |
| KeptLog.HeldExact | server/src/state/feed_index.rs:284-382 | such an index is the log from one boundary on exactly when no recording block was kept below it |
| KeptLog.HeldCompare | server/src/state/feed_index.rs:326-382 | two such indexes of one chain hold the same exactly when nothing recorded lies between their boundaries |
| State.VersionsPush | server/src/state/mod.rs:2139-2167 | pushing and trimming keeps the k-th snapshot from the end the fold of the chain without its last k blocks |
| State.VersionsCut | server/src/state/mod.rs:2313-2323 | truncating does too |
| Runs.Run | server/src/sink.rs:34-719 | after any run of blocks, rollbacks and resets the current snapshot is the fold of the surviving chain, every block's events are cut at the highest boundary since it was recorded, and the index is the whole log from the highest boundary on exactly when no surviving block that recorded something lies between |
| Runs.Handle | server/src/sink.rs:34-60 | one message: a block, a rollback within the history, or a reset |
| Feed.SameListsSameEvents | server/src/state/feed_index.rs:126-183 | indexes of the same events have the same lists, logs and position indexes, and with the same lists they hold as many of every event |
| Feed.PartitionPoint | server/src/state/feed_index.rs:284-294 | binary search finds the split of a sorted list |
| Feed.FeedIndex.AddPoolMinted | server/src/state/feed_index.rs:126-131 | one more event of its kind in the held log |
| Feed.FeedIndex.AddRefs | server/src/state/feed_index.rs:133-140 | one event per listed subject |
| Feed.FeedIndex.AddDelegation | server/src/state/feed_index.rs:142-157 | one more entry, with its position under source and target |
| Feed.FeedIndex.Rollback | server/src/state/feed_index.rs:284-324 | all lists, logs and position indexes hold exactly the events at or below the slot |
| Feed.FeedIndex.Prune | server/src/state/feed_index.rs:326-382 | all lists, logs and position indexes hold exactly the events at or above the boundary |
| Feed.Rebuild | server/src/state/feed_index.rs:384-418 | the rebuilt index lists exactly the positions of the log's entries |
| Feed.IncrementalIsRebuilt | server/src/state/feed_index.rs:142-157 | a position index kept entry by entry is the one rebuilt from scratch |
| Feed.FeedIndex.PoolMintedBlocks | server/src/state/feed_index.rs:159-164 | the held log's minted blocks of the pool |
| Feed.FeedIndex.BlocksOf | server/src/state/feed_index.rs:166-171 | the held log's blocks of a subject, for each list |
| Feed.FeedIndex.DelegationEntries | server/src/state/feed_index.rs:173-183 | the held entries naming the subject, once per role |
| Feed.FeedIndex.DelegationEntriesByCred | server/src/state/feed_index.rs:267-282 | the held entries of one credential, from both logs |
| FeedLog.CollectRetain | server/src/state/feed_index.rs:284-382 | cutting the log and reading a view is reading the view and cutting it |
| FeedLog.RetainSplit | server/src/state/feed_index.rs:284-382 | on a sorted list a cut is the part before or after the split point |
| FeedLog.ByCredCount | server/src/state/feed_index.rs:267-282 | each entry of the credential, deregistrations included, as often as it is held, and no other |
| FeedLog.ByCredConcat | server/src/state/feed_index.rs:267-282 | in the order of the log |
| FeedLog.TouchingCount | server/src/state/feed_index.rs:173-183 | each entry once for every side on which it names the subject |
| FeedLog.TouchingConcat | server/src/state/feed_index.rs:173-183 | in the order of the log |
| Restart.WriteSnapshot | server/src/state/mod.rs:979-993 | format, network, the snapshot without its derived parts, the holdings stream, the index |
| Restart.LoadSnapshot | server/src/state/mod.rs:2373-2466 | nothing exactly for another format, another network or a malformed stream; a file written gives its snapshot, the stake index empty |
| Restart.CutFile | server/src/state/mod.rs:2448-2466 | a file whose holdings stream is cut short anywhere is not loaded |
| Restart.SameNext | server/src/state/mod.rs:1909-2168 | snapshots that differ only in the order of the stake lists stay so, and record the same events |
| Restart.RunExtends | server/src/sink.rs:854-884 | running on after a save, with no rollback below the saved slot, keeps the saved blocks and only raises boundaries |
| Restart.AppliedInOrder | server/src/sink.rs:673-676 | blocks applied in order leave one boundary for all, the last one's |
| Restart.ResumedHeld | server/src/daemon.rs:211-217 | a saved index, cut back to its snapshot and brought forward along the chain stopped at, holds that chain's events cut at the boundaries of the save and the tip's own |
| Restart.NeverPrunedAbove | server/src/sink.rs:673-676 | if the tip's own boundary is the highest the resumed index is the same, whatever the save covered |
| Restart.StoppedAsSaved | server/src/sink.rs:673-676 | so it is when the state stops as saved and was not pruned above the saved slot |
| Restart.StopAndResume | server/src/daemon.rs:211-217 | a state saved any number of snapshots behind its tip runs on and stops; loading, rolling back to the saved slot and applying the blocks that survive above it gives the same current snapshot, handle lists as sets, and the same index (the events held; every list, log and position index) exactly when nothing recorded lies between the boundaries |
| Restart.ShortRollbackSplits | server/src/sink.rs:673-676 | one more block and a rollback of ten slots that takes it back make the resumed index differ |
| Epochs.EpochsMatchSlots | server/src/server.rs:103-117 | a slot has reached an epoch's first slot exactly when its epoch is that one or later; this fails exactly for slots before the known slot and epochs up to the starting one |
| Epochs.EpochHolds | server/src/server.rs:103-109 | from the known slot on a slot is of an epoch exactly when it lies in that epoch's stretch, counted from the starting epoch |
| Epochs.StartEpochHolds | server/src/server.rs:104-105 | the starting epoch is the one in whose seconds the known slot lies, at the length of Byron slots |
| Epochs.KnownNetworks | server/src/state/mod.rs:2793-2798 | slot 4492800 of the main network is of epoch 208 and slot 86400 of the pre-production one of epoch 4; the index window is one epoch |
| Epochs.PoolEpochBlocks | server/src/server/subject.rs:11-23 | the number of held minted blocks of the pool from the epoch's first slot on |
| Epochs.EpochCountExact | server/src/server/subject.rs:6-23 | for an epoch that began after the base the count is exact exactly when no block the pool minted in it lies below the highest boundary since that block was recorded |
| Epochs.CurrentEpochKept | server/src/server/subject.rs:6-10 | with epochs no longer than the window and no block ever applied beyond the epoch, no boundary passes its start |
| Epochs.RollbackAcrossBoundary | server/src/server/subject.rs:6-10 | a rollback of a few slots across an epoch boundary loses a block of the current epoch |
| HoldingsWire.CountRuns | server/src/state/mod.rs:661-671 | the counting pass counts the groups that will be emitted |
| HoldingsWire.SerializePolicies | server/src/state/mod.rs:710-734 | one element per policy run, as many as announced |
| HoldingsWire.SerializeHoldings | server/src/state/mod.rs:653-693 | one entry per address run, as many as announced |
| HoldingsWire.HeldBack | server/src/state/mod.rs:183-285 | a leaf written as slot and variable-length quantity reads back |
| HoldingsWire.AddrBack | server/src/state/mod.rs:122-137 | an address key, with or without credential, reads back |
| HoldingsWire.PairRead | server/src/state/mod.rs:192-285 | a pair is read as low and high half of a quantity; a slot of more than 32 bits is refused |
| HoldingsWire.OneEntry | server/src/state/mod.rs:640-760 | one token of one address, token by token as it is written |
| HoldingsWire.CutShort | server/src/state/mod.rs:763-938 | a stream cut short anywhere is malformed |
| HoldingsWire.StreamRoundTrip | server/src/state/mod.rs:640-938 | reading what was written gives the map back and leaves the rest of the stream; addresses interned are distinct, exactly those held, and as many as announced |
| KeyOrder.KeyOrderTotal | server/src/state/mod.rs:287-300 | keys are totally ordered by credential, address, asset |
| KeyOrder.KeysOrdered | server/src/state/mod.rs:115-137 | keys without a credential come first, then credential, address and asset decide in this order |
| KeyOrder.BytesLessAt | server/src/state/mod.rs:115-137 | byte strings compare by the first byte in which they differ, a beginning before what it begins |
| KeyOrder.InOrder | server/src/state/mod.rs:653-693 | the entries of a map in key order are that map |
| KeyOrder.CredRangeIsFilter | server/src/state/mod.rs:1202-1210 | scanning from the credential's least key while it matches is filtering by credential |
| KeyOrder.AddrRangeIsFilter | server/src/state/mod.rs:1213-1222 | scanning from the address's least key while it matches is filtering by address |
| Tiles.AddressTileDiff | server/src/state/mod.rs:1230-1252 | each gained token once and each lost token once: the exact differences of the two grids |
| Tiles.StakeTileDiff | server/src/state/mod.rs:1262-1308 | the exact differences of the unions over the credential's addresses, without duplicates |
| Tiles.ScanIsGrid | server/src/state/mod.rs:338-352 | the rows a scan yields are the subject's grid |
| Tiles.TileParts | server/src/state/mod.rs:312-314 | a tile's policy is the first 28 bytes of the asset id, its name the rest |
| Tiles.GridIs | server/src/state/mod.rs:338-352 | a tile is on the grid exactly when its policy has 28 bytes and the subject holds policy followed by name |
| Tiles.LiveStream.OnEvent | server/src/server.rs:566-633 | a delta against the snapshot seen last, none for the first one: added are exactly the tokens held now and not then, policy of 28 bytes and name, removed the reverse, and each added one comes with what the subject now owns of it over all its addresses, which is positive |
| Tiles.OwnedQty | server/src/state/mod.rs:370-390 | a lookup for an address, the sum over the credential's range for a stake key, is what the subject owns |
| Owned.OwnedIsUnspent | server/src/state/mod.rs:370-390 | what a subject owns of a token is what the unspent outputs at the address, or at all addresses of the stake key, hold of it |
| Tiles.LivePageExact | server/src/server.rs:566-633 | a page applying the deltas of any observed snapshots ends with the last grid exactly when it started right on the tokens that never flipped |
| Tiles.PageFollows | server/src/server.rs:566-570 | a page loaded from the first observed snapshot follows to the last, rollbacks included |
| Significance.ApplyStakeChange | server/src/filter.rs:238-337 | for an address the outputs less the inputs at it; otherwise the net of the delegators' outputs, inputs and withdrawals, with certificates for pools and DReps only, and each moved delegator once where the feed shows them |
| Significance.BlockMagnitudes | server/src/filter.rs:365-412 | for every target the largest absolute net of any transaction |
| Significance.NetToIsNet | server/src/filter.rs:378-402 | attributing by target is summing over the target's delegators when the two maps are inverse |
| Significance.DecisionsAgree | server/src/filter.rs:339-412 | the index and a page decide alike on the threshold for every table of active stakes exactly when the certificates on show do not change the largest net of the block |
| Significance.CertificateDiffers | server/src/filter.rs:310-324 | a certificate naming the subject makes the two decisions differ |
| PageChange.NetDeclared | server/src/filter.rs:267-302 | the net shown is what the transaction says the delegators together gain: outputs less inputs less withdrawals |
| PageChange.NetIsLive | server/src/filter.rs:267-302 | for a transaction that takes effect it is what their live stake changes by, whatever it was |
| PageChange.AddressNetIs | server/src/filter.rs:245-265 | on an address's page it is what the address's unspent lovelace changes by |
| PageChange.RecordedMeans | server/src/filter.rs:339-412 | a block is recorded for a subject exactly when one transaction says the subject's delegators together gain or lose more than a thousandth of its active stake |
| PageChange.CertificatesExact | server/src/filter.rs:303-325 | the impacts of a block's certificates are, for all stakes, the stake of the subject's delegators after the block less that of those before, both as it was before, exactly when each credential's certificates lead to and from the subject as often as the block as a whole does |
| PageChange.DistinctTurnOnce | server/src/filter.rs:303-325 | at most one certificate per credential suffices |
| PageChange.ShownChangeExact | server/src/filter.rs:233-337 | the change a pool's or DRep's page shows of a transaction with certificates is the true change of its delegators' stake, less what joining delegators gain in it, plus what leaving ones do |
| PageChange.FeeOfJoiningMissed | server/src/filter.rs:303-325 | the fee of a delegation is not in the change shown |
| Paging.SortFeed | server/src/server/replay.rs:954-955 | the stable sort orders by slot, id and source, and keeps the rows |
| Paging.PageIsNext | server/src/server/replay.rs:913-957 | the merged, sorted and truncated rows are the next rows of the whole feed |
| Paging.WhenMore | server/src/server/replay.rs:966-971 | a source is capped or rows are cut off exactly then |
| Paging.OlderPage | server/src/server/replay.rs:883-978 | a page is the next rows, and its cursors leave exactly the rest; there is a cursor exactly when more than the limit was left, or just the limit, all of one source |
| Paging.CursorsAdvance | server/src/server/replay.rs:959-964 | least displayed ids, or the incoming ones, mark off what was shown |
| Paging.FollowAll | server/src/server/replay.rs:1114-1127 | following the cursors ends and shows every row of the three sources once, newest first across pages |
| BackwardWalk.PrepareRewards | server/src/server/replay.rs:356-364 | per-epoch sums, newest first, preserve every sum above an epoch |
| BackwardWalk.PrepareWithdrawals | server/src/server/replay.rs:365-370 | filtered and sorted, preserving every sum above a slot |
| BackwardWalk.SubjectReplay.PreBlockStake | server/src/server/replay.rs:73-90 | anchor less the rewards after the block plus the withdrawals after it less the deltas walked |
| BackwardWalk.WalkPage | server/src/server/replay.rs:207-382 | a page's values are those sums, and its cursor carries the oldest one |
| BackwardWalk.ForwardSpan | server/src/server/replay.rs:67-72 | forward, the stake changes between a block and a later point by exactly those sums |
| BackwardWalk.PageValue | server/src/server/replay.rs:73-90 | from a right anchor each value is the forward stake before the block, off by the withdrawals fetched again |
| BackwardWalk.PageExact | server/src/server/replay.rs:73-90 | a page is right exactly when those add up to nothing; the first page always is |
| BackwardWalk.OlderPageExact | server/src/state/dbsync.rs:1640-1673 | an older page is right exactly when nothing was withdrawn at or above its cursor's slot |
| BackwardWalk.CursorContinues | server/src/server/replay.rs:92-96 | the cursor of a right page is a right anchor for the next |
| BackwardWalk.WithdrawalFetchedTwice | server/src/server/replay.rs:365-369 | a withdrawal inside a block of the first page makes the second page wrong |
| BackwardWalk.NthPageOff | server/src/server/replay.rs:92-96 | on the n-th page of a walk every value is off by what this page and all pages before it fetched again |
| BackwardWalk.WholeWalkExact | server/src/state/dbsync.rs:1640-1673 | all pages of a walk up to the n-th are right exactly when it is the first or nothing was withdrawn at or above the cursor it was fetched from |
| History.HistoryIsStake | server/src/server/replay.rs:67-90 | along any chain the forward value of a credential's history, its feed's blocks, withdrawals elsewhere and rewards of epochs entered, is the live stake of the snapshot reached |
| History.HistoryInOrder | server/src/server/replay.rs:67-90 | the history is chronological |
| History.FirstPageIsStake | server/src/server/replay.rs:73-90 | every block of a first page gets the live stake of the snapshot before it, with the rewards the block credits |
| CatchUp.StepKeeps | server/src/source.rs:156-231 | every store, load and message of either process keeps the invariant on published slot, marks and queue |
| CatchUp.DrainedMeansApplied | server/src/sink.rs:805-823 | in every interleaving, if catch-up ended by draining with no rollback queued, every message handed over before the observed Await had been applied |
| CatchUp.QueuedRollbackEndsEarly | server/src/sink.rs:814-815 | blocks 10 and 20, the tip, a rollback to 5, blocks 8 and 18, the new tip, then Await: an interleaving that ends catch-up too early |
| CatchUp.EarlyIffOverlooked | server/src/sink.rs:805-823 | for whatever the source does: some interleaving ends catch-up too early exactly when there are points among its actions at which the sink can look at one message after the other, go on after each but the last, and find there the flag up and no higher slot published although more was handed over before that Await |
| CatchUp.CauseSuffices | server/src/sink.rs:805-823 | a block and more after it handed over before an Await, and no slot above the block's published by some later point, is enough when the blocks before it were behind their tips; it and all later ones may be at the tip |
| CatchUp.EarlyHasCause | server/src/sink.rs:805-823 | without such a block, Await and point there is no early end, whatever the tips |
| CatchUp.NoRollbackNoCause | server/src/source.rs:156-231 | when no rollback follows a block, as after those to the intersection, there is none |
| CatchUp.TipEndMeans | server/src/sink.rs:805-812 | in every interleaving, an end that is not by draining is at a block that at some moment after it was handed over was not below the published tip |
| CatchUp.EndsByItself | server/src/source.rs:73-82 | when the source is quiet, its last message a block and an Await seen or the tip reached, the sink has ended catch-up by the time the queue is empty, without a further block |

## Left out

- SQL, the node and peer connections, HTTP and event streams, stage scheduling, watchdogs and memory logging: input and output.
- Block decoding, hashes, CIP-14 fingerprints and MessagePack bytes: blocks are decoded values, files are token streams and values.
- The snapshot's pool parameters, DReps, vote counts, decimals, tickers and titles: they follow the same fold and would only add fields.
- The cache of unspent outputs inside the snapshot: it is only a lookup cache; the model has the unspent outputs themselves.
- Off-chain refreshes of tickers, names and decimals, which change only the newest snapshot, and refreshes of active stakes, which are fixed inputs here.
- Sharing of interned address keys in memory: the reader's list of interned keys stands for it.
- PageChange.NetIsLive: of a transaction that failed its scripts the page shows what it declares; only what it declares is stated (NetDeclared), not what its collateral moves.
- HoldingsWire.StreamRoundTrip: the reader is a set of functions over a token list, the writer keeps the loops of the source.
- 64-bit overflow of lovelace, stakes and nets: amounts are unbounded integers; only leaves and checksum words have their width.
- UTF-16 surrogates, and lower-casing of characters outside ASCII, in the web codec: strings are ASCII where case matters.
- Addresses written as bech32 strings in decoded transactions: stake-change computations take the address bytes.
- The input shown for a withdrawal, which resolves to no credential, and how handle names are read off tokens and datums: a transaction lists the handles it spends and makes.
- BitPrefix.FilterExact: the choice among a handle, a whole address and a typed prefix is not modelled, only the prefix search.
- Tie-breaking when a block, a vote and a delegation share a slot on a page, and the display of a page's rows.
- Failed database queries, which the code replaces by empty answers.
- The delegators page's live changes, social cards, search scores and message parsing.
- State.State.Reset: the snapshot rebuilt from the database is a parameter.
- Rendered.IndexedIffRendered: delegators and threshold are those of the block's time, as the code's comment allows, and delegations filled in from the database are not part of the page.
- CatchUp.EarlyIffOverlooked: only ends by draining are called too early; what an end at the tip means is stated apart (TipEndMeans).
- CatchUp.StepKeeps: receiving and applying a message are one step of the sink, and the port is unbounded, which only allows more interleavings.
- BackwardWalk.WalkPage: every block of a page is walked; a block that could not be fetched from the peer is not modelled.
