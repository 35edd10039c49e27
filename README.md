# substrate-timetravel core, modelled in Dafny

This project models the logic of `substrate-timetravel` that runs over a block's staking and
election state once that state is loaded into memory:

- the staking ledger consistency checker (`src/gadgets/staking_ledger.rs`). It works over the
  `Ledger` (controller to ledger record), `Bonded` (stash to controller) and `Payee` storage
  maps. It has two classification scans, the choice of parent and child block, and the
  in-place `deprecate_controller` migration;
- the stake aggregation and share-distribution utilities (`src/utils.rs`). These are
  `SortedTargets::from_voters` and the ProRata and Pareto arms of `share_distribution`;
- the election gadgets (`src/gadgets.rs`):
  - the bounded `min_active_stake` scan;
  - the DPoS miner `mine_dpos`;
  - the two updates of the election provider's snapshot storage;
- the assembly of the election-analysis CSV row (`ElectionEntryCSV::new` in `src/operations.rs`).

Files and modules:

- `primitives.dfy` (`Primitives`): account ids, the `u64` and `u32` types and the `as u32`
  cast.
- `wrappers.dfy` (`Wrappers`): `Option` and `Result`. A Rust panic (`assert!`, `unwrap`,
  `expect`, a `u64` division by zero) is a `Failure` value.
- `ordering.dfy` (`Ordering`): the two standard-library behaviours the core relies on. One is
  the ascending key order of a `BTreeMap`. The other is the stable `sort_by_key`, written as
  an insertion sort and proved to be a permutation and sorted, and stable for input in
  ascending id order, the form both call sites use.
- `npos.dfy` (`NposElections`): the election types and the two `sp_npos_elections`
  functions the DPoS miner calls, `to_supports` and `evaluate`. Each is given with the
  contract the miner relies on.
- `utils.dfy` (`Utils`), `gadgets.dfy` (`Gadgets`), `staking_ledger.dfy` (`StakingLedger`),
  `operations.dfy` (`Operations`): one module per source file.

The code that changes state is imperative Dafny:

- loops over maps and sequences, with invariants;
- the class `StakingLedger.Ext`, whose `ledger`, `bonded` and `payee` fields the migration
  rewrites;
- the class `Gadgets.ElectionStore`, holding the snapshot, its metadata and the desired target
  count.

Each method is proved against a specification function, and the properties of the
specification are lemmas.

Account ids are `int`. `u64` and `u32` are subset types, and `u128` amounts are `nat`. A
`BTreeMap` that is iterated in key order is a key set laid out by `AscendingKeys`. A storage
map iterated in unspecified order is a Dafny `map` whose keys the loop picks in arbitrary
order. Each check's contract holds for every iteration order.

Three behaviours of the code that the model keeps as they are:

- `compute_and_store_unbounded_snapshot` stores `DesiredTargets = MaxElectableTargets` as it
  is, without capping it to the number of targets returned.
- The Pareto arm divides by zero when one of its two parts is empty, that is, with fewer than
  two targets; the model returns a failure there.
- `mine_dpos` splits each voter's stake equally over that voter's own targets. It does not
  use `share_distribution`.

## Model

| member | source | states |
|---|---|---|
| `Ordering.AscendingKeys` | src/utils.rs:25 | A `BTreeMap`'s keys in iteration order: every key exactly once, strictly ascending. |
| `Ordering.SortByKey` | src/utils.rs:26 | `sort_by_key` returns a permutation of its input that is non-decreasing by the key. |
| `Ordering.SortByKeyIsLex` | src/utils.rs:25-26 | The sort is stable: if the input ids ascend, elements with equal keys keep ascending id order. |
| `Ordering.Reverse` | src/gadgets.rs:278 | `rev()`: same length, element `i` is the input's element `len-1-i`. |
| `Ordering.ReversePermutes` | src/gadgets.rs:276-280 | Reversal keeps the same multiset of elements. |
| `Primitives.AsU32` | src/gadgets.rs:92-95 | `as u32` is the identity below 2^32 and never increases a value. |
| `NposElections.ToSupports` | src/gadgets.rs:274 | `to_supports` gives one support per target listed in some assignment, in ascending target order, including a target whose shares rounded down to 0. Each total is the sum of all amounts assigned to that target. |
| `NposElections.MinimalTotal` | src/gadgets.rs:283 | The score's minimal stake is at most every winner's total. It is attained when there are winners, and is the running minimum's initial `u128::MAX` when there are none. |
| `NposElections.EvaluateBounds` | src/gadgets.rs:283 | The score's minimal stake times the winner count is at most the stake sum. The minimal stake times the sum is at most the sum of squares. |
| `Utils.AddVote` | src/utils.rs:20-22 | The inner loop adds one voter's stake to each target it lists. The map's keys grow by exactly those targets, and every value becomes the aggregate over the voters so far. |
| `Utils.TallyStakes` | src/utils.rs:17-23 | The nested loops build a map whose keys are exactly the nominated targets. Each value is the sum of the stakes of the voters listing that target, counted once per occurrence. |
| `Utils.RankByStake` | src/utils.rs:25-26 | The map's keys, each exactly once, ascending by stake; equal stakes in ascending key order. |
| `Utils.RankedByAggregate` | src/utils.rs:17-26 | Ranking the tallied map ranks the nominated targets by aggregate stake, with ties by ascending id. |
| `Utils.FromVoters` | src/utils.rs:13-29 | `from_voters` lists every nominated target exactly once and nothing else. Every earlier target has a smaller aggregate stake, or an equal one and a smaller id. |
| `Utils.ParetoSplit` | src/utils.rs:51-52 | The split index is at most the length. Both parts are non-empty from two targets on, and the first part is empty below two. |
| `NposElections.UniformSharesFit` | src/utils.rs:40-42 | `total / n` to each of `n` shares hands out at most `total`, and loses less than `n` to rounding. |
| `Utils.PercentagesFit` | src/utils.rs:54-57 | The 20% and 80% totals together are at most the weight. |
| `Utils.PushShares` | src/utils.rs:41-43 | The push loop yields `(target, share)` for each target, in order. |
| `Utils.ProRataShares` | src/utils.rs:38-46 | ProRata fails (division by zero) exactly when there are no targets. Otherwise each target gets `weight / len`, in ranked order, with total ≤ weight < total + len. |
| `Utils.ParetoTotalFits` | src/utils.rs:54-66 | Two non-empty parts paid equal shares of the 20% and 80% totals hand out at most the weight. |
| `Utils.ParetoShares` | src/utils.rs:47-71 | Pareto fails (division by zero) exactly when there are fewer than two targets. Otherwise the first split targets share 20% equally and the rest share 80% equally, in ranked order, with total ≤ weight. |
| `Utils.DistributeShares` | src/utils.rs:32-73 | `share_distribution` gives one pair per ranked target, in ranked order, with total ≤ weight. Under ProRata each amount is weight / len; under Pareto the target at position i gets `ParetoShare(weight, len, i)` (20% shared by the first 80% of positions, 80% by the rest). It fails exactly on the policy's division by zero. |
| `Utils.ExampleAggregates` | src/utils.rs:81-87 | In the test voter list, targets 1 to 4 are nominated, with aggregates 40, 20, 40 and 10. |
| `Utils.TargetVotesWorks` | src/utils.rs:80-91 | `from_voters` on the test voter list yields `[4, 2, 1, 3]`. |
| `Utils.DistributionsWork` | src/utils.rs:93-114 | Through `DistributeShares`, with weight 100 ProRata gives `[(4,25),(2,25),(1,25),(3,25)]` and Pareto gives `[(4,6),(2,6),(1,6),(3,80)]`. |
| `Gadgets.MaxAllowedLen` | src/gadgets.rs:122-129 | `max_allowed_len` is the smaller of `MaxElectingVoters` and the voter count. |
| `Gadgets.IterationBound` | src/gadgets.rs:118-137 | The voters-seen bound `2 * max_allowed_len`, computed in `u32`, is at most twice `max_allowed_len`. It equals that product when no wrap occurs. |
| `Gadgets.MinNonZero` | src/gadgets.rs:132-160 | The running minimum is never 0 and is at most every nonzero weight. It is one of the weights, or the `u64::MAX` sentinel, which it always is when no weight is nonzero. |
| `Gadgets.MinActiveStake` | src/gadgets.rs:113-163 | The scan reads `seen` voters, with `seen` ≤ the list length and ≤ `2 * max_allowed_len`. It accepts at most `max_allowed_len` nonzero weights. It stops exactly at the first of: the list ends, the bound is hit, or the accepted count is reached. The result is the least nonzero weight read, or `u64::MAX`, always when `max_allowed_len = 0`. |
| `Gadgets.EqualSplitFits` | src/gadgets.rs:265-269 | A good voter's equal split hands out at most its stake, losing less than one unit per target. |
| `Gadgets.DposAssignmentsOfGoodVoters` | src/gadgets.rs:254-272 | Every assignment is the equal split of a voter with targets and nonzero stake. Every such voter has its assignment. There are no more assignments than voters. |
| `Gadgets.SplitStake` | src/gadgets.rs:265-269 | The inner push loop builds the voter's equal split. |
| `Gadgets.BuildAssignments` | src/gadgets.rs:252-272 | The voter loop builds exactly the DPoS assignments: bad voters are skipped, and the others are assigned in voter order. |
| `Gadgets.Ranked` | src/gadgets.rs:275-278 | Sorting by total and reversing gives a permutation of the supports in non-increasing order of total. |
| `Gadgets.WinnersAreTop` | src/gadgets.rs:274-280 | `take(desired_targets)` keeps min(desired, n) supports, drawn from the supports, in non-increasing total order. No support left out has a larger total than a kept one. |
| `Gadgets.WinnersTieBreak` | src/gadgets.rs:274-280 | With supports in ascending target order, winners with equal totals come in descending target order. |
| `Gadgets.WinnersBacked` | src/gadgets.rs:274-281 | Each DPoS winner is a supported target whose total is the whole stake the assignments give it. |
| `Gadgets.MineDpos` | src/gadgets.rs:247-292 | A missing snapshot or desired target count fails. Otherwise the result is the score of the top `desired_targets` supports of the DPoS assignments. |
| `Gadgets.MetadataOf` | src/gadgets.rs:92-95 | The metadata is the voter and target counts cast to `u32`, exact below 2^32. |
| `Gadgets.ElectionStore.SnapshotDataOrForce` | src/gadgets.rs:35-60 | An existing snapshot leaves the store unchanged and is reported with its metadata and encoded size. Otherwise the created snapshot is stored with matching metadata and desired targets, or the creation error is returned. The store's snapshot/metadata agreement is preserved. |
| `Gadgets.ElectionStore.ComputeAndStoreUnboundedSnapshot` | src/gadgets.rs:67-110 | The snapshot is killed first. Targets are requested with limit `MaxElectableTargets` and voters with the full voter-list count. On a provider error the store holds no snapshot. Otherwise it stores the new snapshot, metadata matching its lengths, and `DesiredTargets = MaxElectableTargets` uncapped. |
| `StakingLedger.LedgerChecks` | src/gadgets/staking_ledger.rs:9-37 | One stash per ledger whose stash is unbonded or bonded to another controller: a list of the bad controllers, each exactly once, maps position by position onto the returned stashes. Consistent ledgers contribute nothing, and the count equals the number of bad controllers. |
| `StakingLedger.BondedChecks` | src/gadgets/staking_ledger.rs:39-67 | A bonded pair goes to `none` exactly when its controller has no ledger, and its stash to `ok` exactly otherwise. `inconsistent` holds exactly `(stash, ledger.stash)` for mismatching ledgers, once per stash, all also in `ok`, so its length is the number of mismatching stashes. The sizes of `none` and `ok` add up to the number of `Bonded` entries. |
| `StakingLedger.CleanChecksMeanEqualCounts` | src/gadgets/staking_ledger.rs:111-121 | When both checks come back clean, `Ledger` and `Bonded` have equal counts. |
| `StakingLedger.DeprecateOne` | src/gadgets/staking_ledger.rs:175-191 | One migration step fails exactly when the controller has no ledger. Otherwise `Bonded[stash] = stash`, and `Ledger[stash]` is the controller's old record. The controller key is gone unless it is the stash. Every other key is unchanged. |
| `StakingLedger.Migrate` | src/gadgets/staking_ledger.rs:174-192 | The batch migration fails only with a missing ledger of one of the batch's controllers. |
| `StakingLedger.MigrateSelfBonds` | src/gadgets/staking_ledger.rs:188 | After a successful migration every stash of the batch is bonded to itself. |
| `StakingLedger.MigrateKeepsSelfBond` | src/gadgets/staking_ledger.rs:188 | A stash bonded to itself stays so through any migration. |
| `StakingLedger.DeprecateOneRepairs` | src/gadgets/staking_ledger.rs:176-190 | Migrating a consistent pair in a consistent store succeeds and keeps every ledger consistent. The stash ends bonded to itself with its ledger under its own key. |
| `StakingLedger.MigrateFrame` | src/gadgets/staking_ledger.rs:188-190 | Keys no pair of the batch names keep their ledger and bond. |
| `StakingLedger.MigrationRepairs` | src/gadgets/staking_ledger.rs:174-192 | A batch of consistent pairs succeeds and leaves every ledger consistent, with each stash self-bonded under its own key. The batch needs distinct stashes and no controller that is another pair's stash. |
| `StakingLedger.ParentIndex` | src/gadgets/staking_ledger.rs:77-89 | The parent's block number is ≤ the child's; on a tie the snapshot at index 1 is the parent. |
| `StakingLedger.Ext.DeprecateControllerSimulation` | src/gadgets/staking_ledger.rs:174-192 | It succeeds exactly when the batch migration of the old maps does, and the maps become that migration. Otherwise it returns the missing-ledger error of the first pair whose controller has no ledger, and the maps hold the migration of the pairs before it. `Payee` is untouched. |
| `StakingLedger.StakingLedgerChecks` | src/gadgets/staking_ledger.rs:70-172 | Anything but two snapshots fails and leaves every snapshot unchanged. Otherwise the child is not modified, the migrated batch is exactly the child's ledger-less `Bonded` pairs, and the call succeeds exactly when that batch migrates in the parent, whatever the counts. On success the parent's block is ≤ the child's, the counts and out-of-sync flag are the child's, the reported bad, none, inconsistent and ok lists are the results of `ledger_checks` and `bonded_checks` on the child (and `ledger_checks` on the parent before migrating), each bad-stash list with its listing of the bad controllers, and the parent's maps become the migration of the batch. On failure the parent holds the migration of the pairs before the failing one. |
| `Operations.NewElectionEntry` | src/operations.rs:104-175 | Every score, count and size is read back unchanged from the row's columns. The era column is the active era's index, or 0 without one. |

## Left out

- `mine_with` and `mine_solution` (`src/gadgets.rs:167-239`), and the `BalanceIterations` and `Balancing` statics. They wrap the pallet's miner and feasibility check and the library's SequentialPhragmen/PhragMMS, none of which is part of this model.
- `sp_npos_elections::to_supports` and `Supports::evaluate` are not re-derived, and their code is not part of this model. `ToSupports` and `Evaluate` state the per-target sum, in ascending target order, and the (minimum, sum, sum of squares) score. The supports' voter lists and the library's saturating arithmetic are not modelled.
- NposElections.MinimalTotal: for no winners (`desired_targets` of 0, or no good voter) the minimal stake is taken to be `u128::MAX`, the value the library's running minimum starts from. That value is an assumption about library code outside this model.
- The pallet accessor `Staking::Pallet::ledger(StakingAccount::Controller(..))` is a lookup of `Ledger[controller]`. Any further check the pallet makes there is not part of this model.
- The pallet's `create_snapshot` and `kill_snapshot` are not part of this model. `SnapshotDataOrForce` takes `create_snapshot`'s outcome as a parameter. Killing the snapshot clears the snapshot, its metadata and the desired target count.
- The data providers (`electable_targets`, `electing_voters`) are function parameters. Their error messages are plain strings.
- SCALE `encode().len()` sizes are opaque: a function parameter `encodedLen`.
- `block_number` and `active_era` (`src/gadgets.rs:22-29`) are storage reads. The block number is a field of `Ext`, and the era is an argument of `NewElectionEntry`.
- Utils.ParetoShares: the `f32` arithmetic of the Pareto arm is written as `4*len/5`, `weight/5` and `4*weight/5`. These agree with the `f32` code for lengths and weights below 5,242,881 (about 2^22.3). From there on the rounded `f32` product of 0.8 can reach the next integer: 5,242,881 × 0.8 rounds to 4,194,305 in `f32`, where `4*5242881/5` is 4,194,304.
- Utils.TallyStakes: the per-target sums are unbounded. The `u64` overflow of `+=` in `from_voters` is not modelled.
- Gadgets.MineDpos: the library's `u128` support sums and score arithmetic are unbounded here.
- Gadgets.MinActiveStake: the weight function of the staking pallet is given as the list of the voters' weights in voter-list order, and `VoterList::count()` is that list's length.
- StakingLedger.StakingLedgerChecks: it returns the logged values as a `Report`, where the source only logs them and returns `Ok(())`. The two snapshots are distinct objects, as owned values in a `Vec` are.
- When a migration aborts on a missing ledger, the source panics and the run ends. The model returns the error, with the maps holding the migration of the pairs before the failing one.
- Gadgets.IterationBound: `NPOS_MAX_ITERATIONS_COEFFICIENT * max_allowed_len` is computed with the `u32` wrap-around of a release build. A debug build panics on that overflow instead.
- All logging; `src/main.rs` (runtime selection, RPC connection, CSV file output), `src/commands.rs` (building externalities over the network or from disk), `src/rpc.rs`, `src/configs.rs` (CLI parsing), `src/prelude.rs` (type aliases), and the macro-generated per-chain entry points of `src/operations.rs`.
