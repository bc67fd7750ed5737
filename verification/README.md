# Custodial ledger engine: verification project

A Dafny 4.11 model of the parts of the ledger engine whose correctness is hardest to see from the
code, with machine-checked proofs. `dafny verify dfyconfig.toml` checks all of it.

What is modelled, in the system's own terms:

- **Output set** (`Outputs`, `LruCache`, `BalanceCaches`, `UtxoDiff`, `UtxoRecency`, `UtxoSet`): 256 bounded LRU shards,
  the address index, the supply cache and the two balance caches as fields of a class, with a ghost map of
  all live outputs and one of the resident ones. The store fallback is a parameter that answers exactly the
  live outputs that are not resident. Every operation keeps index and caches exact under any pattern of
  evictions, a batched diff means its spends and creates one at a time, and what a bounded shard keeps is
  what was added to it last.
- **Rebuild** (`LedgerRebuild`): the two-pass bootstrap over blocks in any order, against replaying the
  blocks' own deltas in any causal order.
- **Emission** (`EmissionBudget`, `EmissionGate`, `EmissionProtocol`, `EmissionGrowth`): budget arithmetic,
  the reserve / forge / release gate as a class over a durable cell, the protocol with several reservations
  in flight, failing writes that may have landed, releases after the fact, restarts and unreadable records,
  and the compound bound on supply.
- **Governance** (`RuntimeConfig`, `ConfigEffect`, `GovernancePolicy`): the recursive update language, its application,
  its effect field by field, and the static direction judged against the configuration before the update.
- **Block graph** (`DagPaths`, `DagReach`, `DagWeights`, `DagFinality`, `Dag`): cumulative weights against
  counting paths, confirmation counting and milestone finality against reachability, the child index, and
  insertion.
- **Persistence** (`PersistStore`, `PersistPipeline`): the batch append with filtered duplicate detection, and the
  consumer that drains, retries and stops, interleaved freely with producers and failures; the filter in front
  of the duplicate check may answer "maybe" for any id.
- **Kernels** (`BackPressure`, `CivilDate`, `CoinSelection`, `FeeSplit`, `TokenBucket`, `Amounts`, `PowBits`).

Amounts are integers in units of 10^-8; rates are exact reals; `round_dp(8)` is rounding to the nearest
unit with ties to even. Block ids are opaque texts.

Where a promise of the source or its comments turned out not to hold, the code is modelled as it is, the
failing input is a lemma, and the exact condition is proved:

- The rebuild does not scan token burns, rewards, custodial mints, encrypted transactions and milestone rewards,
  all of which move outputs when their block is applied; up to creation times it agrees with a replay if and
  only if those kinds leave no trace, and with creation times if and only if blocks also carry the times that
  application stamps (`LedgerRebuild.RebuildMatchesReplayIff`, `LedgerRebuild.RebuildEqualsReplayIff`,
  `LedgerRebuild.BurntOutputReturns`, `LedgerRebuild.EncryptedTransferUndone`).
- Listing an address never falls back on the store, because eviction takes outputs out of the index; it is
  complete if and only if no live output of the address is evicted (`UtxoSet.ShardedUtxoSet.UtxosByAddress`).
- Recomputing the indexes from the shards is right if and only if no shard had to evict, and the guard
  that compares the total count with the maximum does not establish that
  (`LedgerRebuild.BootstrapUtxos`, `LedgerRebuild.TotalCountIsNoGuard`).
- A release names no period; one stale release lets a period issue twice its budget
  (`EmissionProtocol.ReleaseCoversIff`, `EmissionProtocol.StaleReleaseOverspends`).
- Once the persist channel is closed, insertion reports an error after the block has entered the live supply,
  and the reservation is handed back all the same: budgets are issued without limit
  (`EmissionProtocol.AfterEffectCoversIff`, `EmissionProtocol.ClosedChannelIssuesWithoutLimit`).
- A record that cannot be read at a restart counts as no record, so the period starts over
  (`EmissionProtocol.UnreadableKeepsSafeIff`, `EmissionProtocol.UnreadableReloadOverspends`).
- A tightening update can lengthen the period and so raise its budget, though never the rate
  (`GovernancePolicy.BudgetNeverLargerIff`, `GovernancePolicy.TightenCanRaiseBudget`).
- `commit_block` leaves the child index behind if and only if the block has parents (`Dag.Dag.CommitBlock`).
- Durable children counts are maxima only in channel order; a queue in the opposite order of insertion makes
  them go backwards (`PersistStore.AppendCountsExactIff`, `PersistStore.CountGoesBackwards`).
- A batch that landed but whose tip trimming failed is written again, as the filter before the duplicate check
  does not hold it; blocks stay as they are, but a chance hit of the filter can split the batch and lower a
  count (`PersistPipeline.RetryUnchangedIff`, `PersistStore.SplitRetryLowersCount`).
- Split fees can exceed the fee by rounding, even for a registered split list (`FeeSplit.PaidOut`,
  `FeeSplit.RegisteredOverpays`).
- The token bucket stays within cap plus refill plus one token over every window that a call opens if and
  only if a guard on the bucket and the call holds (`TokenBucket.WindowBoundIff`,
  `TokenBucket.WindowExceedsOneToken`).
- A client that stays within the nominal rate can be refused, because each refill drops the parts of a
  millisecond and of a token; a call is granted if and only if these losses leave enough, and a client that asks
  for whole tokens of whole milliseconds is never refused (`TokenBucket.GrantedIff`,
  `TokenBucket.PacedNeverRefused`, `TokenBucket.NominalRateRefused`).
- A relaxed load may return a maximum from before a drain, and then a recorder leaves although its value is in
  no later drain; over all runs it is kept if and only if the version it relied on is not from before a drain
  that preceded its entry (`BackPressure.KeptIffFresh`).
- Formatting a negative amount can be read back only for some fractions (`Amounts.RoundTripIff`).

## Model

| member | source | states |
|---|---|---|
| Outputs.ShardOfHex | crates/pms-core/src/utxo.rs:160-167 | an outpoint goes to the shard of the byte its transaction id starts with in hexadecimal, of either case, and to shard 0 if it does not start with one |
| LruCache.PopSpec | crates/pms-core/src/utxo.rs:319-325 | popping a key from a shard removes that key and changes no other lookup |
| LruCache.PushSpec | crates/pms-core/src/utxo.rs:300-308 | pushing a new key puts it before all others, keeps their order, and drops at most one of them, the last, which is the reported pair, exactly when the shard was full |
| BalanceCaches.AddExact | crates/pms-core/src/utxo.rs:191-213 | counting a fresh output keeps supply and every balance equal to the sum over all live outputs |
| BalanceCaches.SubExact | crates/pms-core/src/utxo.rs:216-253 | discounting a live output keeps all sums exact although entries that reach zero are deleted |
| BalanceCaches.NoneLeft | crates/pms-core/src/utxo.rs:216-230 | deleting a supply entry whose count reaches zero loses nothing: no output of the asset is left, so its total is zero |
| BalanceCaches.SubBalanceRightIff | crates/pms-core/src/utxo.rs:232-253 | subtracting from a balance map is right exactly when the entry exists or the amount is zero |
| BalanceCaches.AddExactIffFresh | crates/pms-core/src/utxo.rs:300-308 | adding an outpoint keeps the supply cache exact if and only if the outpoint is new |
| BalanceCaches.ExactForBothIff | crates/pms-core/src/utxo.rs:657-698 | caches exact for a part are exact for the whole if and only if nothing is missing |
| UtxoDiff.DiffIsSequential | crates/pms-core/src/utxo.rs:350-454 | the meaning of a diff is removing every spend and then adding every create, one at a time |
| UtxoDiff.IndexAddSpec | crates/pms-core/src/utxo.rs:263-268 | adding to the address index adds exactly that pair and leaves no empty set |
| UtxoDiff.IndexRemoveSpec | crates/pms-core/src/utxo.rs:270-278 | removing from the address index removes exactly that pair and drops a set that became empty |
| UtxoDiff.PushedIndex | crates/pms-core/src/utxo.rs:300-314 | indexing a pushed output and un-indexing the evicted one keeps the index exact for the resident outputs |
| UtxoDiff.PopTracks | crates/pms-core/src/utxo.rs:319-325 | after a pop each shard holds exactly the resident outpoints that hash to it |
| UtxoDiff.PushTracks | crates/pms-core/src/utxo.rs:300-308 | after a push each shard holds exactly the then resident outpoints; eviction happens only in a full shard |
| UtxoDiff.NoEviction | crates/pms-core/src/utxo.rs:132-156 | while everything is resident, an output that still fits finds its shard below capacity |
| UtxoDiff.DiffStep | crates/pms-core/src/utxo.rs:393-431 | processing one more shard of a diff extends resident set, live set, missed spends, evictions and deferred index updates by exactly that shard |
| UtxoDiff.IndexSettles | crates/pms-core/src/utxo.rs:433-454 | deferred index updates followed by eviction clean-up leave the index exact for what is resident |
| UtxoDiff.SettledLive | crates/pms-core/src/utxo.rs:433-439 | once missed spends are settled from the store, the live outputs are those of the sequential meaning |
| UtxoDiff.SettledOps | crates/pms-core/src/utxo.rs:433-448 | no deferred update adds and removes the same outpoint, so their order does not matter |
| UtxoRecency.PushRecent | crates/pms-core/src/utxo.rs:300-308 | when a shard holds the last outpoints of its log it still does after a push, and a full shard drops the one of them that was added earliest |
| UtxoRecency.PopRecent | crates/pms-core/src/utxo.rs:319-325 | popping an outpoint, held or not, keeps the shard holding the last outpoints of its log |
| UtxoRecency.LatestResident | crates/pms-core/src/utxo.rs:285-314 | the outputs a shard keeps are exactly those added to it last and not removed since |
| UtxoRecency.LogsSettle | crates/pms-core/src/utxo.rs:393-439 | a whole diff takes its spends out of the log of each shard and puts its creates at the end, in order |
| UtxoSet.GroupByShard | crates/pms-core/src/utxo.rs:359-376 | grouping keeps, for each shard, the items that hash to it in their original order |
| UtxoSet.ShardedUtxoSet.constructor | crates/pms-core/src/utxo.rs:138-158 | an empty set satisfies the invariant; shard capacity is the maximum divided by 256, rounded up, at least one, zero meaning unbounded |
| UtxoSet.ShardedUtxoSet.SupplyAdd | crates/pms-core/src/utxo.rs:191-213 | caches exact for any set of outputs stay exact when an output outside it is counted |
| UtxoSet.ShardedUtxoSet.SupplySub | crates/pms-core/src/utxo.rs:216-260 | caches exact for any set of outputs without negative amounts stay exact when one of them is discounted |
| UtxoSet.ShardedUtxoSet.Get | crates/pms-core/src/utxo.rs:285-297 | a lookup answers the live output, resident or evicted, and nothing else |
| UtxoSet.ShardedUtxoSet.Add | crates/pms-core/src/utxo.rs:300-314 | adding a new outpoint keeps the invariant and adds exactly it; what stays resident in its shard are the outputs added last, and nothing is evicted while everything fits |
| UtxoSet.ShardedUtxoSet.Remove | crates/pms-core/src/utxo.rs:319-343 | removing answers the live output and removes exactly it, resident or evicted, keeping the invariant and, of each shard, the outputs added last |
| UtxoSet.ShardedUtxoSet.SpendInShard | crates/pms-core/src/utxo.rs:398-413 | the spends of one shard remove the resident ones and report the others as missed, with the caches exact throughout |
| UtxoSet.ShardedUtxoSet.CreateInShard | crates/pms-core/src/utxo.rs:415-429 | the creates of one shard enter caches and shard, with every eviction reported; the shard then holds as many as it can |
| UtxoSet.ShardedUtxoSet.DiffShards | crates/pms-core/src/utxo.rs:378-431 | the loop over affected shards reaches the state that the diff specifies for all shards |
| UtxoSet.ShardedUtxoSet.SettleMissed | crates/pms-core/src/utxo.rs:433-439 | missed spends found in the store leave live set and caches; others have no effect |
| UtxoSet.ShardedUtxoSet.ApplyDiff | crates/pms-core/src/utxo.rs:350-454 | a diff grouped by shard with deferred index updates keeps the invariant and has the sequential effect on the live outputs, hence on supply and balances; each shard keeps as many as it can of the outputs added to it last |
| UtxoSet.ShardedUtxoSet.CirculatingSupplyByAsset | crates/pms-core/src/utxo.rs:468-480 | the supply query answers sum and count over all live outputs of the asset, evicted ones included |
| UtxoSet.ShardedUtxoSet.BalanceByAddressAndAsset | crates/pms-core/src/utxo.rs:483-510 | the balance query answers the sum over all live outputs of the address and asset |
| UtxoSet.ShardedUtxoSet.UtxosByAddress | crates/pms-core/src/utxo.rs:517-560 | listing an address gives each of its resident outputs once and only those, that is those among the outputs added last to their shards, which is all of its live outputs if and only if none of them is evicted |
| UtxoSet.ListAfterAdds | crates/pms-core/src/utxo.rs:300-314 | of n outputs of one address added to one shard of a new set, the listing has exactly the last min(n, capacity) |
| UtxoSet.ShardedUtxoSet.RebuildIndexes | crates/pms-core/src/utxo.rs:657-698 | recomputing from the shards makes index and caches exact for the resident outputs |
| LedgerRebuild.ReplayAt | crates/pms-core/src/net_adapter/persist.rs:1863-2030 | a causal replay leaves exactly the outputs created and not spent by the replayed blocks, encrypted transactions and node rewards included, with the creation times stamped on the way |
| LedgerRebuild.AppliedKinds | crates/pms-core/src/net_adapter/persist.rs:1863-2030 | what applying a block spends and creates, kind by kind: rewards native and after the fees, bridge locks and other payloads creating nothing |
| LedgerRebuild.SpentOnce | crates/pms-core/src/net_adapter/persist.rs:1863-2030 | in a causal order no output is spent by two blocks |
| LedgerRebuild.ReplayOrderIrrelevant | crates/pms-core/src/core_adapter.rs:391-509 | any two causal orders of the same blocks leave the same outputs |
| LedgerRebuild.RebuildMatchesReplayIff | crates/pms-core/src/core_adapter.rs:391-509 | up to creation times the two-pass rebuild equals the replay if and only if burns, rewards, custodial mints, encrypted transactions and milestone rewards leave no trace |
| LedgerRebuild.RebuildEqualsReplayIff | crates/pms-core/src/core_adapter.rs:391-509 | with creation times it equals the replay if and only if, in addition, every rebuilt output carries the time its block was applied |
| LedgerRebuild.BurntOutputReturns | crates/pms-core/src/core_adapter.rs:391-509 | a minted and then burnt output is live again after a rebuild |
| LedgerRebuild.EncryptedTransferUndone | crates/pms-core/src/net_adapter/persist.rs:1863-1865 | after a rebuild the input of an encrypted transfer is live again and its output is gone |
| LedgerRebuild.KindsRebuilt | crates/pms-core/src/core_adapter.rs:391-509 | after a rebuild an output of a mint, transfer, settlement, bridge mint, seizure or reversal is live with its value exactly if no transfer, settlement, bridge lock, seizure or reversal names it as an input, and nothing else is live |
| LedgerRebuild.CollectSpent | crates/pms-core/src/core_adapter.rs:391-447 | the first pass collects exactly the inputs of the scanned kinds |
| LedgerRebuild.AddAllUnspent | crates/pms-core/src/core_adapter.rs:449-503 | the second pass, in any order, adds exactly the scanned outputs that are not spent |
| LedgerRebuild.BootstrapUtxos | crates/pms-core/src/core_adapter.rs:391-509 | the live outputs are those of the kinds scanned, kind by kind; after rebuilding the indexes the set satisfies its invariant if and only if every shard has room, that is if nothing was evicted |
| LedgerRebuild.TotalCountIsNoGuard | crates/pms-ledger/src/instance.rs:234-238 | a total count within the maximum does not imply that every shard has room |
| EmissionBudget.EffectiveInCorridor | crates/pms-server/src/emission.rs:193-197 | the effective rate lies in the corridor, whichever bound is larger, and a target inside is used as it is |
| EmissionBudget.EffectiveClamps | crates/pms-server/src/emission.rs:193-197 | a target outside the corridor gets its nearer end, whichever way round the corridor is given |
| EmissionBudget.BudgetNearest | crates/pms-server/src/emission.rs:203-211 | a budget is the unit nearest to supply times effective rate times the part of a year of 31536000 seconds |
| EmissionBudget.RoundingTies | crates/pms-server/src/emission.rs:203-211 | ties are rounded to the even neighbour, up and down |
| EmissionBudget.BudgetBound | crates/pms-server/src/emission.rs:203-211 | whatever the target, a period's budget is at most the corridor's share of the supply plus half a unit, and never negative |
| EmissionGate.EmissionGate.Load | crates/pms-server/src/emission.rs:236-244 | loading restores the durable state, and the initial one when nothing is recorded or the record cannot be read or parsed |
| EmissionGate.EmissionGate.Reserve | crates/pms-server/src/emission.rs:264-337 | baseline takes exactly what is left, an explicit request exactly what it asks if that is left, both only with the durable write; too large a request is refused as exhausted, none or less is granted as nothing; gate, durable copy and answer are those of the specified reservation |
| EmissionGate.EmissionGate.Release | crates/pms-server/src/emission.rs:340-348 | the counter falls by the amount, not below zero, and the durable copy follows if its write lands |
| EmissionGate.EmissionGate.EmitNativeGated | crates/pms-server/src/emission_mint.rs:122-219 | a mint issues exactly what was asked, or the remainder, if and only if it is left and every later step succeeds; every failure after the reservation gives the budget back, and issues something only when insertion fails after its effect |
| EmissionGate.RollOverSpec | crates/pms-server/src/emission.rs:293-303 | a period starts if and only if the clock has passed the end of the recorded one; it is then the one that holds the clock, unspent, with the budget computed from the supply read |
| EmissionGate.ReserveMoves | crates/pms-server/src/emission.rs:264-337 | a grant moves the current period's counter by exactly that amount, within the budget, and is durable first |
| EmissionGate.ReleaseUndoesGrant | crates/pms-server/src/emission.rs:340-348 | releasing what a call was granted leaves the period as the call found it |
| EmissionProtocol.StepKeepsSafe | crates/pms-server/src/emission_mint.rs:122-219 | every orderly reservation, mint, release, failed write and restart keeps the protocol invariant and never moves a frozen budget |
| EmissionProtocol.RunStaysSafe | crates/pms-server/src/emission.rs:236-348 | over any run with timely releases, none of them after the block took effect, and restarts that can read the record, no period issues or has reserved more than its frozen budget, and the durable counter is never below what its period issued |
| EmissionProtocol.SafeMeans | crates/pms-server/src/emission.rs:264-348 | the invariant gives the budget limit for every period and the lower bound on the durable counter |
| EmissionProtocol.NoSlackWithoutRestart | crates/pms-server/src/emission.rs:264-348 | without restarts the counter equals what the current period has issued and reserved, failed writes or not |
| EmissionProtocol.ReleaseCoversIff | crates/pms-server/src/emission.rs:340-348 | without slack a release keeps the counter covering its period if and only if the reservation belongs to the current period or nothing is counted in it |
| EmissionProtocol.AfterEffectCoversIff | crates/pms-server/src/emission_mint.rs:205-218 | a release after the block took effect keeps the counter covering its period if and only if the slack is at least the amount |
| EmissionProtocol.UnreadableKeepsSafeIff | crates/pms-server/src/emission.rs:236-244 | a restart that cannot read the record keeps the invariant if and only if only the initial state is recorded |
| EmissionProtocol.StaleReleaseOverspends | crates/pms-server/src/emission.rs:340-348 | one release after a roll-over lets a period use twice its budget |
| EmissionProtocol.ClosedChannelIssuesWithoutLimit | crates/pms-server/src/emission_mint.rs:205-218 | with the persist channel closed, n calls issue a period's budget n times |
| EmissionProtocol.UnreadableReloadOverspends | crates/pms-server/src/emission.rs:236-244 | one restart that cannot read the record lets a period issue and reserve twice its budget |
| EmissionGrowth.StepKeepsGrowth | crates/pms-server/src/emission.rs:293-303 | every step keeps committed supply within the compound bound |
| EmissionGrowth.SupplyCompounds | crates/pms-server/src/emission.rs:193-211 | over n granting periods the supply is at most n compound steps of the corridor's share, each rounded up by half a unit |
| EmissionGrowth.CompoundClosedForm | crates/pms-server/src/emission.rs:203-211 | the bound is S0(1+r)^n plus the accumulated half units |
| RuntimeConfig.ValidateFeeTiers | crates/pms-config/src/runtime.rs:27-80 | the loop accepts exactly the tier lists that are non-empty, strictly ascending from zero, with non-negative ratios and one catch-all at the end |
| RuntimeConfig.TiersValidIff | crates/pms-config/src/runtime.rs:27-80 | comparing each boundary with the one before it orders all of them |
| RuntimeConfig.SplitMeansTenThousandIff | crates/pms-config/src/runtime.rs:363-372 | the 32-bit split check means a sum of 10000 if and only if the sum does not wrap onto it |
| RuntimeConfig.DistributionMeansTenThousand | crates/pms-config/src/config.rs:717-731 | the 32-bit sum of a distribution is its total modulo 2^32, so up to 65537 beneficiaries it is valid if and only if it totals 10000 |
| RuntimeConfig.FeeConfigMeans | crates/pms-config/src/runtime.rs:378-387 | the final check asks that the distribution, or else the two-way split, totals 10000 up to wrap-around and that a tier schedule, if there is one, ascends |
| RuntimeConfig.ApplyUpdateInner | crates/pms-config/src/runtime.rs:244-360 | the in-place application with its loop over batches computes the specified configuration or error |
| RuntimeConfig.UpdateIsItsLeaves | crates/pms-config/src/runtime.rs:352-356 | however batches nest, an update means its single updates applied in sequence |
| ConfigEffect.LeafEffect | crates/pms-config/src/runtime.rs:254-351 | a single update is refused exactly when it is malformed; otherwise each field has the value the update carries for it, and every field it does not name stays as it was |
| ConfigEffect.InnerEffect | crates/pms-config/src/runtime.rs:244-360 | for batches nested to any depth the first malformed single update refuses all of it, and otherwise each field has the value of the last single update that names it |
| ConfigEffect.UpdateEffect | crates/pms-config/src/runtime.rs:231-241 | an accepted update has its full effect and nothing else changes; it is accepted exactly if nothing inside is malformed and the configuration it ends as passes the fee checks |
| ConfigEffect.SingleEffect | crates/pms-config/src/runtime.rs:231-241 | an accepted single update of any of the nineteen kinds leaves the fields it names with the values it carries and every other field as it was |
| ConfigEffect.MintSwitchCloses | crates/pms-config/src/runtime.rs:273-275 | a valid configuration always accepts switching the mint off, and it is off then |
| GovernancePolicy.TierAcceptedIff | crates/pms-config/src/governance_policy.rs:160-172 | a declared tier is accepted if and only if it is for every single update inside |
| GovernancePolicy.TightenIff | crates/pms-config/src/governance_policy.rs:83-134 | an update tightens if and only if every single update inside does and no batch is empty |
| GovernancePolicy.SingleTiers | crates/pms-config/src/governance_policy.rs:42-66 | for each kind of single update, the declared tiers that are accepted |
| GovernancePolicy.SingleTimelock | crates/pms-config/src/governance_policy.rs:83-156 | for each kind of single update, the timelock: none for cutting the mint, a lower maximum or a corridor with nothing raised, else seven, fifteen or forty-five days |
| GovernancePolicy.UpdatesKeepInvariant | crates/pms-config/src/runtime.rs:231-241 | every accepted update of any direction keeps fee validity and corridor coherence |
| GovernancePolicy.TightenNeverLoosens | crates/pms-config/src/governance_policy.rs:83-134 | an accepted tightening update, nested batches included, never re-enables mint, raises no maximum, ceiling, target or effective rate, changes no fee field, and keeps the invariant |
| GovernancePolicy.InstantNeverLoosens | crates/pms-config/src/governance_policy.rs:145-156 | the timelock is zero exactly for tightening updates, so what takes effect at once never loosens |
| GovernancePolicy.ParamsInForce | crates/pms-server/src/emission_mint.rs:58-80 | ungoverned, the boot parameters are in force, and governed, those of the configuration in percent |
| GovernancePolicy.TightenAcceptedIff | crates/pms-config/src/runtime.rs:231-287 | a tightening update is refused only for an incoherent corridor inside it |
| GovernancePolicy.TighterRate | crates/pms-server/src/emission_mint.rs:58-80 | with ceiling and target not raised the effective rate in force is not raised |
| GovernancePolicy.BudgetNeverLargerIff | crates/pms-server/src/emission_mint.rs:58-80 | no supply gets a larger period budget if and only if target times period length does not grow |
| GovernancePolicy.TightenCanRaiseBudget | crates/pms-config/src/governance_policy.rs:83-134 | a longer period counts as tightening and raises the period's budget |
| DagPaths.PathSetSpec | crates/pms-core/src/weights.rs:8-13 | the path set holds exactly the descending paths of a block |
| DagPaths.PathCountsSolve | crates/pms-core/src/weights.rs:8-13 | path counts solve the weight equation, child edges counted with multiplicity |
| DagPaths.SolutionUnique | crates/pms-core/src/weights.rs:8-13 | on an acyclic graph the weight equation has one solution |
| DagPaths.SolutionIsPathCount | crates/pms-core/src/weights.rs:8-13 | on an acyclic graph the solution is the number of descending paths, the empty one included |
| DagWeights.Dequeue | crates/pms-core/src/weights.rs:38-39 | dequeuing a block starts its delivery with nothing delivered |
| DagWeights.PresentParent | crates/pms-core/src/weights.rs:43-56 | delivering to a present parent never underflows its degree, adds the child's weight once, and enqueues it exactly when its last child edge is gone |
| DagWeights.FinishBlock | crates/pms-core/src/weights.rs:38-58 | after its last parent a block is done and its weight is final |
| DagWeights.Drained | crates/pms-core/src/weights.rs:38-61 | an acyclic graph is drained completely and the weights then solve the weight equation |
| Dag.Dag.OutDegrees | crates/pms-core/src/weights.rs:19-30 | the degree of a block is its number of child edges, counted with multiplicity |
| Dag.Dag.CumulativeWeights | crates/pms-core/src/weights.rs:14-61 | each block is dequeued at most once on any graph and exactly once on an acyclic one, where its weight is the number of descending paths, saturated at 2^64-1 |
| DagReach.ReachClosed | crates/pms-core/src/finality.rs:39-72 | the descendants of a block hold its children and the children of each of them |
| DagReach.ReachLeast | crates/pms-core/src/finality.rs:39-72 | the descendants are the least such set |
| DagReach.DescendantsAndAncestors | crates/pms-core/src/dag.rs:389-398 | with a matching index, b descends from a if and only if a is an ancestor of b along parents |
| DagReach.NotItsOwnDescendant | crates/pms-core/src/finality.rs:38-72 | in an acyclic graph descendants are strict and present |
| DagReach.DepthFinalUpwards | crates/pms-core/src/dag.rs:507-514 | a block final by depth has all its present ancestors final by depth |
| DagReach.DepthFinalGrows | crates/pms-core/src/dag.rs:507-514 | more blocks and child edges never take depth finality away |
| DagFinality.LeafKeepsAcyclic | crates/pms-core/src/dag.rs:67-83 | inserting a new block under present parents keeps the graph acyclic and its parents present |
| DagFinality.FinalSetForgetsHistory | crates/pms-core/src/dag.rs:490-515 | the final set of a graph grown leaf by leaf is the one computed from the last graph alone |
| DagFinality.CommitKeepsIndexIff | crates/pms-core/src/dag.rs:574-581 | inserting without index entries keeps the index exact if and only if the block has no parents |
| DagFinality.SpreadNext | crates/pms-core/src/dag.rs:471-480 | each step of the cut-off search keeps the final set between the start and the cone of the approved ids |
| DagFinality.SpreadDone | crates/pms-core/src/dag.rs:464-487 | from an ancestor-closed set the cut-off search ends with exactly the cone added, ancestor-closed again |
| Dag.Dag.WithGenesis | crates/pms-core/src/dag.rs:38-50 | a graph with only a genesis block satisfies the invariant |
| Dag.Dag.FromStore | crates/pms-core/src/dag.rs:328-401 | reloading gives the stored blocks, counters and finality, and an index with exact multiplicities |
| Dag.Dag.RebuildChildrenIdx | crates/pms-core/src/dag.rs:389-398 | the rebuilt index lists each block under each parent as often as the block names it |
| Dag.Dag.HasKConfirmations | crates/pms-core/src/finality.rs:39-72 | terminates and is true if and only if the block has at least k distinct descendants |
| Dag.Dag.UpdateFinalityAfterInsert | crates/pms-core/src/dag.rs:490-515 | adds exactly the milestone id and, for positive k, every block with at least k descendants |
| Dag.Dag.MaybeUpdateFinalityWith | crates/pms-core/src/dag.rs:464-487 | terminates; from a closed final set adds exactly the milestone, the approved ids and their ancestors through present blocks; closure is kept if and only if the milestone's parents are in the result |
| Dag.Dag.LinkToParents | crates/pms-core/src/validations/apply.rs:5-19 | the block is counted and indexed once under each distinct parent |
| Dag.Dag.ApplyBlockMem | crates/pms-core/src/validations/apply.rs:5-82 | applying a new block keeps index and counters exact and the final set determined by the graph |
| Dag.Dag.AddBlock | crates/pms-core/src/dag.rs:67-83 | accepts exactly a new, validated block with present parents; keeps the graph acyclic, indexed and settled; a refusal changes nothing |
| Dag.Dag.CommitBlock | crates/pms-core/src/dag.rs:574-581 | counts the block under each parent entry and leaves the child index behind if and only if it has parents |
| PersistStore.RocksStore.BuildWriteBatch | crates/pms-storage/src/rocks_store/dag_storage_impl.rs:675-868 | the write holds the blocks not recognised through the filter as stored and, for each of their parents, the maximum count carried by them |
| PersistStore.RocksStore.RunningMaxima | crates/pms-storage/src/rocks_store/dag_storage_impl.rs:793-808 | the running maxima are the largest counts per parent over the batch |
| PersistStore.RocksStore.AppendBlocksBatch | crates/pms-storage/src/rocks_store/dag_storage_impl.rs:675-898 | the append writes what it has to of the batch or nothing, and fills the filter only when acknowledged |
| PersistStore.AppendCountsExactIff | crates/pms-storage/src/rocks_store/dag_storage_impl.rs:793-866 | after appending new blocks stored counts are the maxima of the durable jobs if and only if no parent's count goes backwards |
| PersistStore.RewriteCountsExactIff | crates/pms-storage/src/rocks_store/dag_storage_impl.rs:727-866 | writing stored blocks again keeps the stored counts if and only if the jobs written carry the stored count of every parent they touch |
| PersistStore.SplitRetryLowersCount | crates/pms-storage/src/rocks_store/dag_storage_impl.rs:727-912 | a batch lands, its trimming fails and a chance hit of the filter splits the retry: a stored count goes down |
| PersistStore.CountGoesBackwards | crates/pms-core/src/background_persist.rs:33-49 | two batches queued against their insertion order lower a durable count |
| PersistPipeline.AppendFindsAllOrNone | crates/pms-storage/src/rocks_store/dag_storage_impl.rs:727-763 | an attempt finds its batch wholly new and writes all of it, or wholly stored after an unacknowledged write, when it writes some stored blocks again |
| PersistPipeline.RetryUnchangedIff | crates/pms-core/src/background_persist.rs:217-268 | appending a landed batch again leaves blocks and order unchanged, and the counts if and only if the jobs written again carry the batch's count of every parent they touch |
| PersistPipeline.StepKeepsSafe | crates/pms-core/src/background_persist.rs:166-362 | every step of producers, consumer, failing writes and crashes keeps the pipeline invariant |
| PersistPipeline.RunStaysSafe | crates/pms-core/src/background_persist.rs:166-362 | the invariant holds in every state of every run with distinct block ids |
| PersistPipeline.SafeMeans | crates/pms-core/src/background_persist.rs:33-49 | durable jobs are an unrepeated prefix of the accepted ones, final ids come only from them, children counts are their maxima unless a retry was split, and between batches everything received is durable |
| PersistPipeline.StoppedForever | crates/pms-core/src/background_persist.rs:271-286 | once stopped nothing is accepted or written any more |
| PersistPipeline.PersistTask.constructor | crates/pms-core/src/background_persist.rs:166-180 | a new task is open, idle and empty |
| PersistPipeline.PersistTask.Send | crates/pms-core/src/background_persist.rs:166-176 | a send is accepted exactly by an open channel with room, as one step of the machine |
| PersistPipeline.PersistTask.DrainBatch | crates/pms-core/src/background_persist.rs:171-183 | draining stops at a full batch or an empty channel, with producers interleaved |
| PersistPipeline.PersistTask.PersistBatch | crates/pms-core/src/background_persist.rs:217-286 | the retry loop succeeds if and only if some attempt is acknowledged, and otherwise closes the channel |
| PersistPipeline.PersistTask.PersistFinality | crates/pms-core/src/background_persist.rs:324-340 | the final ids of the whole batch are written together, as one step of the machine |
| PersistPipeline.PersistTask.ConsumeBatch | crates/pms-core/src/background_persist.rs:171-340 | one turn goes on exactly if an append was acknowledged, and then all it received is durable; otherwise it stops and writes no finality |
| BackPressure.StepKeepsInv | crates/pms-core/src/back_pressure.rs:62-93 | every atomic step of recorders and drains keeps the invariant |
| BackPressure.ObservedGrows | crates/pms-core/src/back_pressure.rs:67-80 | the larger of current maximum and maxima drained since a point in time never shrinks, and no version the maximum has held exceeds what was observed since it was stored |
| BackPressure.NeverStuck | crates/pms-core/src/back_pressure.rs:62-82 | a recorder that has not returned always has a next step, whatever the others did |
| BackPressure.NothingLost | crates/pms-core/src/back_pressure.rs:62-93 | under every interleaving, stale relaxed loads included, drained counts plus residual equal the events counted modulo 2^64, and a finished recorder's value is at most what is held or was drained since the version it relied on was stored |
| BackPressure.KeptIffFresh | crates/pms-core/src/back_pressure.rs:67-80 | over all runs, what is held or was drained since a recorder entered covers its value if and only if it did not rely on a version from before an earlier drain |
| BackPressure.MaximumExactAtRest | crates/pms-core/src/back_pressure.rs:62-93 | when all recorders have returned the largest value held or drained is exactly the largest recorded one, stale loads or not |
| BackPressure.Accumulator.RecordEvent | crates/pms-core/src/back_pressure.rs:62-82 | the compare-exchange loop counts once and its value is not lost since the version it relied on, whatever interferes |
| BackPressure.Accumulator.Drain | crates/pms-core/src/back_pressure.rs:89-93 | a drain hands over what it takes: counts drained plus held still account for every event, and what was observed since any point is unchanged |
| CivilDate.EraDoe | crates/pms-server/src/tps_logger.rs:233-240 | the year formula picks the March-based year that holds the day, and no subtraction underflows |
| CivilDate.NextDayFollows | crates/pms-server/src/tps_logger.rs:231-242 | consecutive day numbers give consecutive Gregorian days |
| CivilDate.CountsTheCalendar | crates/pms-server/src/tps_logger.rs:231-242 | the closed formula is the calendar counted day by day from 1970-01-01, hence always a valid date |
| CivilDate.DayNumberBack | crates/pms-server/src/tps_logger.rs:231-242 | the inverse formula gives the day number back |
| CivilDate.DateBack | crates/pms-server/src/tps_logger.rs:231-242 | every valid date from 1970 on is reached |
| CivilDate.TimeOfDay | crates/pms-server/src/tps_logger.rs:224-247 | the time of day is valid and date and time give the second back |
| CivilDate.StrictlyIncreasing | crates/pms-server/src/tps_logger.rs:224-247 | later seconds give later timestamps |
| CoinSelection.SortOrders | crates/pms-bridge/src/engine.rs:229-238 | sorting permutes the coins and orders them largest first |
| CoinSelection.SortIsStable | crates/pms-bridge/src/engine.rs:229-238 | coins of equal amount keep their order |
| CoinSelection.EligibleFromInput | crates/pms-bridge/src/engine.rs:208-237 | a coin is eligible exactly as often as the input has it, with its id and amount, in the requested asset |
| CoinSelection.FirstAreBest | crates/pms-bridge/src/engine.rs:238-248 | of all selections of one size the first coins of the sorted list are worth most |
| CoinSelection.SelectCoins | crates/pms-bridge/src/engine.rs:208-257 | for any amounts selection succeeds if and only if some selection covers; it then takes only input outputs of the asset, covers, stops covering without its last coin, and no selection with fewer coins covers |
| CoinSelection.CoverableIff | crates/pms-bridge/src/engine.rs:250-257 | with non-negative amounts the funds suffice if and only if the eligible total reaches the amount |
| FeeSplit.SplitTotal | crates/pms-contracts/src/engine.rs:95-137 | every emitted amount is positive, in list order, and together they are the larger of the fee and the rounded shares before the last |
| FeeSplit.SharesReachOwners | crates/pms-contracts/src/engine.rs:103-137 | every address is paid exactly its rounded shares |
| FeeSplit.ShareNearest | crates/pms-contracts/src/engine.rs:103-112 | a share is the unit nearest to its part of the fee |
| FeeSplit.EvaluateTransfer | crates/pms-contracts/src/engine.rs:85-147 | nothing is emitted for a refused formula, no fee or no splits, and otherwise each address gets its shares and that of the last split the rest |
| FeeSplit.FormulaCharges | crates/pms-contracts/src/engine.rs:151-178 | a percentage fee is the unit nearest to its part of the amount, a fixed fee the unit nearest to its amount; above the whole, unparsable and negative ones are refused |
| FeeSplit.PercentageWithinAmount | crates/pms-contracts/src/engine.rs:157-167 | a percentage fee is accepted up to 10000 bps and lies between nothing and the amount |
| FeeSplit.PaidOut | crates/pms-contracts/src/engine.rs:95-137 | the payout meets the fee if and only if the rounded shares before the last do not exceed it, never exceeds it by more than (n-1)/2 units, and is exact for up to two splits |
| FeeSplit.BoundIsTight | crates/pms-contracts/src/engine.rs:103-116 | two ties that round up reach the bound |
| FeeSplit.RegisteredOverpays | crates/pms-types-contract/src/lib.rs:158-182 | a split list that registration accepts can pay out more than its fee |
| TokenBucket.TotalBound | crates/pms-server/src/rate.rs:12-35 | tokens stay within the cap, and grants since creation within cap plus refill of the elapsed milliseconds |
| TokenBucket.Conserved | crates/pms-server/src/rate.rs:20-35 | over any calls grants and remaining tokens never exceed the tokens at the start plus the credit |
| TokenBucket.SettlementAccounts | crates/pms-server/src/rate.rs:20-29 | tokens credited and parts lost account for the whole elapsed time, and nothing is lost exactly when whole milliseconds have brought whole tokens |
| TokenBucket.NothingWithheld | crates/pms-server/src/rate.rs:20-35 | over any calls the tokens granted, left, cut off by the cap and lost at settlements are exactly those at the start and of the time settled |
| TokenBucket.LostBounded | crates/pms-server/src/rate.rs:20-29 | each settlement loses less than a token and a millisecond of refill |
| TokenBucket.GrantedIff | crates/pms-server/src/rate.rs:20-35 | a call is granted if and only if what was granted, asked, cut off and lost fits into the tokens at the start and the time settled |
| TokenBucket.PacedNeverRefused | crates/pms-server/src/rate.rs:20-35 | a client whose calls ask for no more than the whole tokens of the whole milliseconds since the call before is never refused |
| TokenBucket.NominalRateRefused | crates/pms-server/src/rate.rs:20-29 | a client that stays within the nominal rate can be refused |
| TokenBucket.WindowBound | crates/pms-server/src/rate.rs:20-35 | over any window that opens with a call, grants are at most the tokens at its opening plus its refill plus the open part of a token, and plus at most one further bucket |
| TokenBucket.WindowBoundIff | crates/pms-server/src/rate.rs:20-35 | grants stay below cap plus refill plus one token in every window that a call opens if and only if the call is aligned with the last settlement, finds the bucket empty, or leaves the open part of a token and one millisecond's refill short of the free room plus one token |
| TokenBucket.WindowExceedsOneToken | crates/pms-server/src/rate.rs:20-29 | a concrete call without the guard and a continuation that reaches cap plus refill plus one token |
| TokenBucket.Limiter.constructor | crates/pms-server/src/rate.rs:12-19 | a new bucket is full |
| TokenBucket.Limiter.Take | crates/pms-server/src/rate.rs:20-35 | a call is granted if and only if it asks no more than the smaller of cap and tokens held plus credit; that is what is left, less the grant |
| TokenBucket.Limiter.TakeAll | crates/pms-server/src/rate.rs:20-35 | a sequence of calls grants the specified total, and all of it to a client that keeps the pace |
| Amounts.RoundTripIff | sdk/src/utils.ts:88-102 | parsing undoes formatting for every amount that is not negative, and for a negative one if and only if its fraction is zero or has seven digits |
| Amounts.Canonical | sdk/src/utils.ts:88-102 | for digits with an optional fraction, formatting the parsed amount gives the canonical form with the first eight digits of the fraction, zeros where there are fewer |
| Amounts.FixedWidth | sdk/src/utils.ts:97-102 | a digit text is its value's digits behind zeros |
| PowBits.CountInByte | sdk/src/utils.ts:72-81 | the mask loop counts the zero bits in front of the highest set bit |
| PowBits.CheckPowBits | sdk/src/utils.ts:62-85 | the check holds if and only if the id, as a big-endian number, is below 2^(bits - required) |

## Left out

- String interning and the compact output representation: outputs carry their texts.
- 96-bit decimal overflow and binary floating-point error of rates; rates are exact reals.
- Locks and lock order, tokio scheduling, wall-clock sleeps; operations on the output set are atomic.
- `utxos_by_address_for_selection` and `rebuild_indexes_from_utxos`, which repeat covered operations with other sources.
- UtxoSet.ShardedUtxoSet.ApplyDiff: requires distinct spends, distinct new creates and non-negative amounts, which block validation establishes; `BalanceCaches.AddExactIffFresh` shows that new creates are needed.
- EmissionProtocol.RunStaysSafe: supposes that each release falls in its reservation's own period, that none follows a block that took effect, and that restarts can read the record unless only the initial state is recorded; `EmissionProtocol.StaleReleaseOverspends`, `EmissionProtocol.ClosedChannelIssuesWithoutLimit` and `EmissionProtocol.UnreadableReloadOverspends` show that each is needed.
- EmissionGrowth.SupplyCompounds: supposes the supply that callers read never exceeds what was issued.
- `EmitNativeGated` takes the outcomes of building, parent selection, forging and insertion as parameters.
- LedgerRebuild.RebuildMatchesReplayIff: deltas from outside are attached to encrypted payloads only, as both callers do; milestone rewards enter as the outputs that distribution created.
- Governance proposals and their enactment, signatures and the timelock clock.
- Dag.Dag.CumulativeWeights: degrees are unbounded, not 32-bit, counters; the graph would need 2^32 child edges of one block.
- Children counters are unbounded, not 64-bit.
- Dag.Dag.AddBlock: full block validation is a parameter; spent outpoints in memory are left out.
- Tip selection, mining, parent choice, JSON export and the concurrent graph.
- PersistPipeline.RunStaysSafe: supposes distinct block ids in the channel, as the in-memory graph accepts each id once, and for children counts the channel order that the source's comment relies on.
- PersistPipeline.SafeMeans: says nothing about stored children counts once a retry was split; `PersistStore.SplitRetryLowersCount` shows why.
- The activity side channel, metrics, counters for logging, tip trimming and time indices of the persist task, and the duplicates that a repeated append leaves in them.
- The text form of the timestamp; the formatter only prints the computed parts.
- CoinSelection.SelectCoins: ledger lookup, locks and building the bridge blocks are left out.
- Contract lookup and scope, and the other formulas of the contract engine.
- Amounts.RoundTripIff: `BigInt` is modelled on optional signs and digits; white space and hexadecimal texts are left out.
- Hexadecimal decoding of the block id in the proof-of-work check; it starts from bytes.
- HTTP, TLS, peer-to-peer, gateway, dashboard, command line, cryptography, hashing and serialisation.
