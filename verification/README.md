# Picoin pool, marketplace and wallet: a verified model

This project models the parts of Picoin whose correctness rests on state, arithmetic and interleavings, and proves
properties of them.

**The mining pool.** A coordinator gives out chunks of a mainnet range to workers, collects their segments, puts them
together and commits the result. HTTP threads, background finalizers and the coordinator thread share one database;
each locked block is one atomic step, and the gaps between blocks are where other threads run. `PoolTables` has the
tables and the effect of every locked block, `PoolCoordinator` the same blocks as methods that update tables in place,
`PoolProtocol` the state machine with each thread's own snapshot, `PoolInvariants`, `PoolTableFacts`, `PoolSteps` and
`PoolSafety` the inductive invariant, and `PoolTheorems` what it means for commits, credit and shares.

**Pool accounting.** `PoolRanges` splits and reassembles ranges. `RoundWindows`, `RewardOrder` and `PayoutSummary` cut
credited shares into reward windows by time stamps, distribute rewards, subtract payouts and compute the operator's
top-up. `PoolStats` has the statistics page's own windows. `PayoutRun` is the automatic payout run. `PoolEndToEnd`
joins the two halves: in every reachable state of the concurrent pool the time windows are pieces of the task sequence.

**The marketplace.** `MarketplaceLedger` and `MarketplaceMoney` hold deposits, the append-only ledger and payments from
balance; `MarketplaceConfirmations` the row-by-row processing of confirmations, which can be cut between any two writes
and done again; `MarketplaceScanner` and `NativeScanner` the checkpointed chain scanner, `MarketplaceRetry` what its polls
leave after a cut; `MarketplaceCapacity` and `MarketplaceDesk` listings, workers, bookings and settlements.

**The wallet.** `CanonicalAmount` and `CanonicalJson` are the printers whose text is signed; `CanonicalJsonReader` is a
reader of JSON texts, defined apart from the printer, that reads them back.

`Prelude`, `StableSort`, `TextOrder` and `Sums` are shared helpers.

## Conventions

- A row's id is its position in its table, so ids are fresh and never reused. Ids that the source derives by hashing are
  taken as injective in what is hashed.
- Times are whole numbers from a strictly increasing clock; 0 stands for a missing time. Amounts are exact: decimals are
  `real`, units and base units are integers, and every rounding is an explicit floor or ceiling.
- Mainnet and node replies are arbitrary inputs to steps. The pool's own computation of one position of the expansion is
  an arbitrary function in the configuration.
- `chunk_id`, `worker_id`, addresses and transaction hashes arrive trimmed and normalised; segments arrive in upper case.
- The chunk table's worker column refers to the workers table with foreign keys on, so completing a chunk for an unknown
  worker is an error that changes nothing.

## Results where the code does not meet the simple claim

- The order of reward rows can show in the amounts when two rows share time and id but not reward
  (`RewardOrder.OrderCanMatter`); `RewardOrder.RewardOrderIff` is the exact condition, and rows of different tasks always
  meet it (`RewardOrder.DistinctIdsOrderIrrelevant`).
- A chain scanner whose first poll is cut short can skip blocks, and their deposits, for good
  (`MarketplaceScanner.CutFirstPollLeavesGap`); `MarketplaceScanner.GapFreeIff` is the exact condition on the polls'
  inputs, and `MarketplaceScanner.FirstPollCompleted` says when it is always met.
- A poll that is cut between the ledger entry and the status of a credit leaves a confirmed deposit that the ledger
  already counts (`MarketplaceScanner.LedgerFollowsCredits` is the exact condition); the next uncut poll repairs it
  (`MarketplaceRetry.CutThenUncut`, `MarketplaceRetry.CutThenLater`).
- A worker that lowers its total below the booked units overbooks its listing
  (`MarketplaceCapacity.LoweredTotalOverbooks`, reached by `MarketplaceCapacity.OverbookedRun`);
  `MarketplaceCapacity.StepFitsIff` is the exact condition.
- The account page sums only the newest 1000 ledger entries (`MarketplaceLedger.ReadingsDifferInRun`);
  `MarketplaceLedger.ReadingsAgreeIff` is the exact condition.
- A payment that an on-chain report resets can be recorded as paid by a second account that is not debited
  (`MarketplaceLedger.PaidByBDebitedToA`); `MarketplaceLedger.PayDebitsIff` is the exact condition for one payment and
  `MarketplaceLedger.RecordedPayerIff` over runs.

## Model

| member | source | states |
|---|---|---|
| `PoolSafety.StepKeeps` | picoin-pool/pool_server.py:339-1191 | Every locked block of every thread, at any moment, keeps the full invariant: table facts, the validity of every thread's earlier-read rows and queued finalizers, one commit per task; it undoes nothing and moves the clock forward |
| `PoolSafety.RunIsSafe` | picoin-pool/pool_server.py:308-971 | The invariant holds in every state of every interleaving of claims, speculative claims, two-phase submits, invalid submits, expiry, finalizers and the coordinator thread |
| `PoolSafety.RunGrows` | picoin-pool/pool_server.py:454-971 | Between any two states of a run statuses only move forward, final task rows and completed chunks are equal, shares keep everything but their credit flag |
| `PoolSafety.AssembledIsTrue` | picoin-pool/pool_server.py:911 | When a finalizer reassembles, its rows always fit together, and with chunk verification on the joined text is the true segment of the whole range |
| `PoolSteps.CompleteKeeps` | picoin-pool/pool_server.py:514-558 | Completing an open chunk keeps every table fact, and its task must have been gathering although the update does not look at the task |
| `PoolSteps.LateKeeps` | picoin-pool/pool_server.py:600-640 | Adding a late race share keeps every table fact, including one share per worker and uniform credit |
| `PoolSteps.TaskEditKeeps` | picoin-pool/pool_server.py:932-970 | Moving a task on, with or without crediting its shares, keeps every table fact |
| `PoolSteps.CreateKeeps` | picoin-pool/pool_server.py:729-770 | Inserting a fetched task with its chunks keeps every table fact when no other task was busy at the earlier check |
| `PoolSteps.OpenEditKeeps` | picoin-pool/pool_server.py:821-843 | Claims, resets and expiry keep every table fact and complete nothing |
| `PoolSteps.LateIsNotWinner` | picoin-pool/pool_server.py:613-632 | A worker without a share of a completed chunk is not the one who completed it |
| `PoolTheorems.CommittedAtMostOnce` | picoin-pool/pool_server.py:884-917 | Over every run each task is committed at most once although submit threads and the tick both finalize; with verification the committed text is the true text of the task range |
| `PoolTheorems.AssemblyCannotFail` | picoin-pool/pool_accounting.py:58-78 | Over every run reassembly succeeds for every finalizer that owns a task |
| `PoolTheorems.CompletesOnlyWhileGathering` | picoin-pool/pool_server.py:514-558 | The second locked block of a submit finds its chunk taken or its worker unknown and changes nothing, or its task is still gathering, exactly one share of the chunk's units is added and the chunk keeps worker, segment and time |
| `PoolTheorems.CompletedIsFinal` | picoin-pool/pool_server.py:514-536 | A completed chunk never changes again; a task outside gathering has only completed chunks, then and in every later state, and the same chunk rows |
| `PoolTheorems.NoShareAfterSubmitting` | picoin-pool/pool_server.py:600-645 | No share of a task is ever added after the task left submitting |
| `PoolTheorems.CreditIsAllOrNothing` | picoin-pool/pool_server.py:921-955 | All shares of a task carry the same credit flag; it is set for submitted, validation-pending and accepted tasks, unset while a task is busy, and never cleared |
| `PoolTheorems.StatusFollowsReply` | picoin-pool/pool_server.py:921-1191 | Over every run a task is accepted, waiting for validation, or submitted exactly as mainnet's stored answer says; without an answer it is busy, lost or failed and nothing of it is credited; with one its shares are credited unless it is rejected |
| `PoolTheorems.RevealDecides` | picoin-pool/pool_server.py:921-955 | What storing a reveal does in any reachable state: four outcomes by accepted, block and status, all shares credited or none, no other task touched |
| `PoolTheorems.AcceptedRevealIsWon` | picoin-pool/pool_server.py:926-928 | A reveal accepted with a block of positive reward is listed as won at once, with that reward, and its shares are credited |
| `PoolTheorems.SettlementIs` | picoin-pool/pool_server.py:987-1036 | A task is won exactly when the block list has a block of it, and beaten exactly when it has none and the last block at its height is another task's |
| `PoolTheorems.SettleRowDecides` | picoin-pool/pool_server.py:1001-1060 | Over every run one row of a settlement pass accepts the task with its own last block, loses it to another task's block at its height, or leaves it |
| `PoolTheorems.OneFirstShare` | picoin-pool/pool_server.py:534-541 | Each completed chunk has exactly one share of the worker that completed it, for all its units |
| `PoolTheorems.SharesAreCompletedUnits` | picoin-pool/pool_server.py:514-558 | Outside full-task races the shares of a task add up to its completed units, never exceed its size, and equal it exactly when every chunk is completed |
| `PoolTheorems.RaceSharesAreFair` | picoin-pool/pool_server.py:576-645 | Two shares of one chunk belong to different workers and hold 1 to all units; nobody has more than the winner; of two late workers the slower never has more |
| `PoolTheorems.LateSharesAreTimed` | picoin-pool/pool_server.py:563-600 | Whoever holds a share of a chunk another worker completed was in a full-task race and has all units if as fast as the winner, otherwise the units times the winner's time by its own, cut to whole units |
| `PoolTheorems.RaceCreditFalls` | picoin-pool/pool_server.py:587-591 | The race credit never rises with the worker's time |
| `PoolTables.RaceCreditIs` | picoin-pool/pool_server.py:587-591 | The race credit between bounds: all units for a time up to the winner's, otherwise credit * time <= units * winner time < (credit + 1) * time; nothing exactly when units * winner time is below the worker's time |
| `PoolTables.ResolvedChunks` | picoin-pool/pool_server.py:792-813 | When a range is cut and into what: one chunk for a race, chunks of the configured size, or single units |
| `PoolTheorems.OneBusyTask` | picoin-pool/pool_server.py:689-701 | At most one task is gathering or submitting in any state: the newest |
| `PoolTheorems.StagesOnlyRise` | picoin-pool/pool_server.py:1003-1060 | No step lowers a task's stage, terminal rows never change, completion times are set once, and an accepted task always has its block |
| `PoolTheorems.WonRewardsOnlyGrow` | picoin-pool/pool_server.py:1443-1479 | A won task stays won with the same row, and no mainnet task is counted twice |
| `PoolTheorems.StatsFollowTaskOrder` | picoin-pool/pool_server.py:1295-1335 | Over every run the statistics page's last-round shares are the credited shares of the newest won piece of the task sequence, and lifetime units split into round units and current-round units |
| `PoolEndToEnd.WindowsFollowTaskOrder` | picoin-pool/pool_accounting.py:319-375 | Over every run the timestamp windows equal cutting the task sequence at each won task; every window contains its own task's shares, so the distributed total is the sum of all won rewards, whatever order tasks settle in |
| `PoolEndToEnd.WinsAreTasks` | picoin-pool/pool_server.py:1443-1479 | The newest-first reward listing is put back into task order by the payout computation's sort |
| `PoolEndToEnd.ShareTimes` | picoin-pool/pool_server.py:515-540 | A credited share's time is before a task's completion exactly when the share's task is that task or an earlier one |
| `PoolEndToEnd.RoundHasUnits` | picoin-pool/pool_server.py:932-955 | The window of a won task has positive units, because the task's own shares are credited |
| `PoolTheorems.SummarizeReachable` | picoin-pool/pool_accounting.py:260-445 | On any reachable state's rows the summary's gross total is the sum of all won rewards cut to eight decimals, and its newest rounds are the newest won pieces of the task sequence |
| `PoolCoordinator.Coordinator.RegisterWorker` | picoin-pool/pool_server.py:317-337 | Upserts the worker, keeping a payout address once it is set, or refuses and changes nothing |
| `PoolCoordinator.Coordinator.ClaimWork` | picoin-pool/pool_server.py:339-452 | Refuses, finds nothing, or assigns the pending chunk with the lowest start, or else another worker's chunk assigned longest, and changes that row alone |
| `PoolCoordinator.Coordinator.FirstPending` | picoin-pool/pool_server.py:366-377 | Finds a pending chunk of an open task with the lowest start, or there is none |
| `PoolCoordinator.Coordinator.AnyAssigned` | picoin-pool/pool_server.py:378-397 | Finds an assigned chunk that no other precedes in the speculative order, or there is none |
| `PoolCoordinator.Coordinator.SubmitWork` | picoin-pool/pool_server.py:454-561 | Refuses an unknown chunk; a segment of another length, a closed task or a slow late submit changes nothing; a false segment reopens the chunk; a true one completes it for all its units; a late one in a race gets the time-weighted units |
| `PoolCoordinator.Coordinator.CompleteChunk` | picoin-pool/pool_server.py:514-561 | The guarded update, the share, and whether the task became ready to finalize |
| `PoolCoordinator.Coordinator.CountOpen` | picoin-pool/pool_server.py:545-558 | Counts exactly the chunks of the task that are not completed |
| `PoolCoordinator.Coordinator.ResetChunk` | picoin-pool/pool_server.py:494-512 | An invalid submit reopens its chunk for any worker unless it is completed; a completed chunk, every other row and every table fact stay |
| `PoolCoordinator.Coordinator.CreditLate` | picoin-pool/pool_server.py:600-650 | Rechecks under the lock and adds one late share, or changes nothing |
| `PoolCoordinator.Coordinator.FindShare` | picoin-pool/pool_server.py:613-624 | Finds whether the worker already has a share of the chunk |
| `PoolCoordinator.Coordinator.ExpireStaleAssignments` | picoin-pool/pool_server.py:821-845 | Reopens exactly the assigned chunks older than the cutoff |
| `PoolCoordinator.Coordinator.ReadyTasks` | picoin-pool/pool_server.py:847-863 | Lists exactly the gathering tasks without open chunks |
| `PoolCoordinator.Coordinator.BeginSubmit` | picoin-pool/pool_server.py:891-912 | The compare-and-set from gathering to submitting, and the task's chunk rows for the winner |
| `PoolCoordinator.Coordinator.FinishSubmit` | picoin-pool/pool_server.py:919-955 | Accepted with a block, waiting for validation, accepted without a block, or rejected, each exactly for its replies; all shares credited unless rejected, then none |
| `PoolCoordinator.Coordinator.FailSubmit` | picoin-pool/pool_server.py:957-970 | A submitting task becomes lost or failed for good and is no longer busy, its shares stay uncredited; no other row changes |
| `PoolCoordinator.Coordinator.CountActive` | picoin-pool/pool_server.py:815-819 | Counts the workers seen since the cutoff, at least one |
| `PoolCoordinator.Coordinator.CreateTask` | picoin-pool/pool_server.py:725-813 | Cuts the range by mode and inserts the task with chunks that tile it, or changes nothing |
| `PoolCoordinator.Coordinator.PendingSettlementTasks` | picoin-pool/pool_server.py:1193-1227 | Collects exactly the rows that await a mainnet block |
| `PoolCoordinator.Coordinator.SettleRow` | picoin-pool/pool_server.py:1001-1060 | Accepts a row that has a block of its own, loses one whose height another task won, leaves any other |
| `PoolCoordinator.Coordinator.ApplyMainnetStatus` | picoin-pool/pool_server.py:1118-1191 | Each mainnet status with the status and reply it stores, under the status guard; anything else changes nothing |
| `PoolCoordinator.IndexBlocks` | picoin-pool/pool_server.py:990-1000 | The lookup tables keep the last block of each task id and height |
| `PoolCoordinator.DecidedIsSettlement` | picoin-pool/pool_server.py:1002-1040 | Deciding by the lookup tables is deciding by the block list |
| `PoolRanges.SplitRange` | picoin-pool/pool_accounting.py:20-34 | Fails exactly on the checked inputs with the right error, otherwise returns the fixed-size chunks |
| `PoolRanges.FixedChunksTile` | picoin-pool/pool_accounting.py:29-34 | Fixed-size chunks cover the range exactly, in order |
| `PoolRanges.FixedChunkSizes` | picoin-pool/pool_accounting.py:29-34 | Every chunk but the last has the asked size; the last is not longer |
| `PoolRanges.SplitRangeBalanced` | picoin-pool/pool_accounting.py:37-55 | Fails exactly on the checked inputs, otherwise returns the balanced chunks |
| `PoolRanges.BalancedChunksTile` | picoin-pool/pool_accounting.py:37-55 | Balanced chunks cover the range with min(max(1, target), units) chunks whose sizes differ by at most one |
| `PoolRanges.AssembleSegment` | picoin-pool/pool_accounting.py:58-78 | The loop returns the joined text or the first problem of the checked walk over the sorted pieces |
| `PoolRanges.AssembleSucceedsIff` | picoin-pool/pool_accounting.py:58-78 | Reassembly succeeds exactly on rearrangements of an exact tiling with matching segment lengths |
| `PoolRanges.WalkFails` | picoin-pool/pool_accounting.py:62-76 | A failure names the first position without a piece, the first piece that ends before it starts, or the first segment of another length |
| `PoolRanges.AssemblePermuted` | picoin-pool/pool_accounting.py:62 | Pieces of a tiling in any order give the tiling's text |
| `PoolRanges.SplitThenAssemble` | picoin-pool/pool_accounting.py:20-78 | Any text cut by either split and reassembled in any order comes back |
| `RoundWindows.OneRoundPerShare` | picoin-pool/pool_accounting.py:319-329 | A valid share falls in exactly one round if it is no later than the last win, and in none otherwise |
| `RoundWindows.WorkerUnitsAddUp` | picoin-pool/pool_accounting.py:331 | Workers' units add up to the units of the round |
| `RoundWindows.RoundPaysReward` | picoin-pool/pool_accounting.py:345-369 | A round with shares pays out its reward exactly |
| `RoundWindows.PayIsProportional` | picoin-pool/pool_accounting.py:345-352 | A worker's part of a reward is its part of the window's units |
| `RoundWindows.GrossAddsUp` | picoin-pool/pool_accounting.py:365-370 | Workers' gross amounts add up to the rewards of the rounds that have shares |
| `RoundWindows.ShareOrderIrrelevant` | picoin-pool/pool_accounting.py:323-330 | Reordering the shares changes no amount |
| `RewardOrder.RewardOrderIff` | picoin-pool/pool_accounting.py:286 | The amounts are independent of the order of the reward rows, for all shares, exactly when leading wins of equal time and id have equal rewards |
| `RewardOrder.OrderCanMatter` | picoin-pool/pool_accounting.py:286 | Two rows of one id and time with different rewards: the order shows in the amounts |
| `RewardOrder.DistinctIdsOrderIrrelevant` | picoin-pool/pool_server.py:1443-1479 | Rows of different tasks, as the task table's primary key gives them, can be listed in any order |
| `PayoutSummary.OverpaymentIdentity` | picoin-pool/pool_accounting.py:426-427 | Paid plus pending less net is the sum over workers of their overpayments, so it is never negative |
| `PayoutSummary.TopUpIsOverpayment` | picoin-pool/pool_accounting.py:427 | The outer clamp of the workers' top-up never acts |
| `PayoutSummary.PayoutOrderIrrelevant` | picoin-pool/pool_accounting.py:405-406 | A worker's final pending amount and overpayment do not depend on the order of payout rows |
| `PayoutSummary.NetAddsUp` | picoin-pool/pool_accounting.py:361-370 | Net amounts add up to the distributed rewards less the fee |
| `PayoutSummary.FeeRateIs` | picoin-pool/pool_accounting.py:312 | The fee is the asked percentage, within 0 and 100 |
| `PayoutSummary.PendingOrOverpaid` | picoin-pool/pool_accounting.py:398-408 | Pending less overpaid is gross less fee less paid, and never both occur |
| `PayoutSummary.Cut8Is` | picoin-pool/pool_accounting.py:448-449 | Figures are cut to whole hundred-millionths towards zero |
| `PayoutSummary.PaidAddsUp` | picoin-pool/pool_accounting.py:405-408 | Paid amounts per worker add up to the total paid |
| `PayoutSummary.RoundShares` | picoin-pool/pool_accounting.py:321-329 | The dictionary of a window holds each worker's units in it, and exactly the workers in it |
| `PayoutSummary.Distribute` | picoin-pool/pool_accounting.py:345-370 | Distributing one round gives every worker its exact part, fee and count, and the totals of the round |
| `PayoutSummary.DistributeRound` | picoin-pool/pool_accounting.py:319-374 | One pass of the reward loop, including rounds without shares |
| `PayoutSummary.DistributeRounds` | picoin-pool/pool_accounting.py:319-375 | All passes: the dictionary holds every worker's sums over all rounds, the totals are the rounds' totals |
| `PayoutSummary.SubtractPayouts` | picoin-pool/pool_accounting.py:377-408 | Clamped subtraction row by row ends at max(0, net - paid) for every worker |
| `PayoutSummary.ListWorkers` | picoin-pool/pool_accounting.py:410-423 | Lists exactly the workers with something pending, with their gross, fee, paid and pending amounts and payable flags; the pending total is theirs |
| `PayoutSummary.SummarizeRoundWindowPayouts` | picoin-pool/pool_accounting.py:260-445 | The whole summary: workers, order, newest twenty rounds, and every total, each equal to its definition over the windows |
| `PoolStats.FilterSharesByWindow` | picoin-pool/pool_accounting.py:97-115 | Keeps exactly the shares inside the bounds that are present |
| `PoolStats.SummarizeShares` | picoin-pool/pool_accounting.py:81-94 | One line per worker in key order with its units and its fraction of the total |
| `PoolStats.TableAddsUp` | picoin-pool/pool_accounting.py:81-94 | The lines of a share table add up to the units of its rows |
| `PoolStats.FractionIs` | picoin-pool/pool_accounting.py:88-93 | A line's fraction is its part of the units of the rows |
| `PoolStats.SameTimes` | picoin-pool/pool_server.py:1481-1496 | Sorting by time alone and by time and id see the same times in the same places, ties included |
| `PoolStats.LastViewIsNewestRound` | picoin-pool/pool_server.py:1307-1317 | The last-round shares are exactly the shares of the newest payout round |
| `PoolStats.LifetimeSplits` | picoin-pool/pool_server.py:1333-1335 | Lifetime units are the units of all rounds plus those of the open window, however times tie |
| `PayoutRun.FloorTwice` | picoin-pool/pool_server.py:73-75 | Cutting an amount to eight decimals and then to six is cutting once |
| `PayoutRun.FloorUnitsIs` | picoin-pool/pool_server.py:73-75 | Cutting to units keeps all but less than one unit |
| `PayoutRun.OpenOrFinal` | picoin-pool/pool_server.py:1973-1982 | A payout is open, confirmed or released; open and confirmed ones count as live |
| `PayoutRun.RunFollowsAnswers` | picoin-pool/pool_server.py:1755-1811 | A payout is released exactly when the network refused it; an unclear answer keeps it reserved; after anything but success nothing more is sent |
| `PayoutRun.EveryWorkerServed` | picoin-pool/pool_server.py:1711-1733 | At its turn a worker is paid exactly when every earlier submission succeeded, its amount reaches the minimum, and amount and fee fit into what is left |
| `PayoutRun.ReconcileDecides` | picoin-pool/pool_server.py:1855-1925 | Confirmed exactly on a confirmed answer; released exactly on a healthy node that reports failure or misses the transaction past the grace period |
| `PayoutRun.RunSpends` | picoin-pool/pool_server.py:1711-1726 | Amounts plus fees of one run never exceed what was spendable |
| `PayoutRun.RunNonces` | picoin-pool/pool_server.py:1732-1801 | The nonces of a run are consecutive and only its last payout can have failed |
| `PayoutRun.RunPaysListed` | picoin-pool/pool_server.py:1711-1726 | Each payout is one listed worker's pending amount cut to units, not below the minimum, at most one per worker |
| `PayoutRun.RunStaysWithinNet` | picoin-pool/pool_server.py:1710-1775 | For every paid worker, live payouts including the new one stay within the net at the start of the run |
| `PayoutRun.ReconcileOnlyReleases` | picoin-pool/pool_server.py:1830-1929 | Reconciling raises nobody's live amount and no reservation, and leaves final rows alone; on an unhealthy node nothing is released |
| `PayoutRun.PayoutTable.ReconcileStatuses` | picoin-pool/pool_server.py:1830-1929 | Updates exactly the oldest reserved rows by what the node says of each |
| `PayoutRun.PayoutTable.CheckList` | picoin-pool/pool_server.py:1831-1844 | The oldest submitting or submitted payouts, at most the limit |
| `PayoutRun.PayoutTable.SendPayouts` | picoin-pool/pool_server.py:1711-1814 | Inserts exactly the payouts of the run, each with its final status |
| `PayoutRun.PayoutTable.RunPayouts` | picoin-pool/pool_server.py:1666-1828 | The whole run: statuses by the network's answers, every eligible worker served in turn, spending within balance less reservations, consecutive nonces, every worker's live payouts within its net |
| `MarketplaceLedger.OpKeeps` | picoin-marketplace/picoin_marketplace/marketplace.py:628-1227 | Every write, also one cut before its second part, keeps the ledger sound and only appends to it |
| `MarketplaceLedger.CheckedIs` | picoin-marketplace/picoin_marketplace/marketplace.py:628-668 | Which deposit requests are accepted and as what: the deposit belongs to the account of the sender's verified wallet |
| `MarketplaceLedger.LedgerIsSafe` | picoin-marketplace/picoin_marketplace/marketplace.py:1033-1244 | Over every run balances stay non-negative and every deposit and payment has at most one entry |
| `MarketplaceLedger.LedgerOnlyGrows` | picoin-marketplace/picoin_marketplace/marketplace.py:1096-1127 | The ledger of an earlier state is a prefix of the ledger of a later one |
| `MarketplaceLedger.BalancesInEveryRun` | picoin-marketplace/picoin_marketplace/marketplace.py:1229-1244 | Over every run each balance is the sum of credited deposits less the sum of payment debits |
| `MarketplaceLedger.BalanceIsDepositsLessPayments` | picoin-marketplace/picoin_marketplace/marketplace.py:1033-1061 | The balance identity for every sound ledger |
| `MarketplaceLedger.CutCreditRerun` | picoin-marketplace/picoin_marketplace/marketplace.py:1033-1061 | Crediting again after a cut between the two writes ends where an uncut credit ends |
| `MarketplaceLedger.PaymentDebitsOnce` | picoin-marketplace/picoin_marketplace/marketplace.py:1177-1227 | A payment that was debited is never debited again, whatever resets its status |
| `MarketplaceLedger.ReadingsAgreeIff` | picoin-marketplace/picoin_marketplace/marketplace.py:1142-1175 | The listed balance equals the available balance exactly when the entries beyond the limit cancel out |
| `MarketplaceLedger.ReadingsAgreeUpToLimit` | picoin-marketplace/picoin_marketplace/marketplace.py:1155-1175 | The two readings agree for all ledgers with n entries of the account exactly when n is at most 1000 |
| `MarketplaceLedger.ReadingsDiffer` | picoin-marketplace/picoin_marketplace/marketplace.py:1155-1175 | Beyond 1000 entries some ledger reads differently |
| `MarketplaceLedger.ReadingsDifferInRun` | picoin-marketplace/picoin_marketplace/marketplace.py:1155-1175 | For every n beyond 1000 a run accepts and credits n deposits of one account, and the account page then shows 1000 of its n units |
| `MarketplaceConfirmations.ProcessSettlesChain` | picoin-marketplace/picoin_marketplace/marketplace.py:713-757 | Processing credits exactly the chain's deposits whose confirmations suffice, counts the others, leaves other chains alone |
| `MarketplaceConfirmations.PendingInOrder` | picoin-marketplace/picoin_marketplace/marketplace.py:718-733 | The list holds exactly the chain's deposits that are not credited, by block and then by id |
| `MarketplaceConfirmations.ProcessAgain` | picoin-marketplace/picoin_marketplace/marketplace.py:713-757 | Processing again after a cut between any two writes ends in exactly the store of processing once without a cut, ledger order included |
| `MarketplaceConfirmations.ProcessRefers` | picoin-marketplace/picoin_marketplace/marketplace.py:1033-1061 | After processing up to any cut the ledger refers to a deposit exactly when it did before, or the deposit's row got as far as its entry with enough confirmations |
| `MarketplaceMoney.PriceRoundsUp` | picoin-marketplace/picoin_marketplace/marketplace.py:2734-2739 | There is a price exactly when the token has a positive rate; its units times the rate cover the amount scaled by the decimals, one unit less does not |
| `MarketplaceMoney.Power10Is` | picoin-marketplace/picoin_marketplace/marketplace.py:2738 | The scale is one at no decimals and ten times as much for each further one |
| `MarketplaceMoney.CoversIff` | picoin-marketplace/picoin_marketplace/marketplace.py:1194-1198 | A balance is below the price exactly when it is worth less than the amount |
| `MarketplaceLedger.PaidByBDebitedToA` | picoin-marketplace/picoin_marketplace/marketplace.py:1177-1227 | A run: A and B have a unit each, A pays and is debited, an on-chain report resets the payment, B pays; the payment records B while its only debit is A's |
| `MarketplaceLedger.PayDebitsIff` | picoin-marketplace/picoin_marketplace/marketplace.py:1177-1227 | Paying a positive price lowers the payer's balance by it exactly when the payment had no debit |
| `MarketplaceLedger.RecordedPayerIff` | picoin-marketplace/picoin_marketplace/marketplace.py:1177-1227 | Over every run without cut payments: a debited payment records the debited account unless another account was the last to pay it, after a report reset it |
| `MarketplaceLedger.PayerAgreesIff` | picoin-marketplace/picoin_marketplace/marketplace.py:1177-1227 | Over every run, cut payments included: a debited payment records the debited account exactly when its last uncut payer is the account that first tried |
| `MarketplaceMoney.Marketplace.AcceptDeposit` | picoin-marketplace/picoin_marketplace/marketplace.py:628-711 | Each check in order; a known event is recognised or refused as a conflict; a new one is stored once, for the account of the verified wallet |
| `MarketplaceMoney.Marketplace.PutLedgerEntry` | picoin-marketplace/picoin_marketplace/marketplace.py:1096-1127 | Inserts unless the reference is taken |
| `MarketplaceMoney.Marketplace.FindLedgerReference` | picoin-marketplace/picoin_marketplace/marketplace.py:1129-1140 | Finds the entry of a reference or there is none |
| `MarketplaceMoney.Marketplace.CreditDeposit` | picoin-marketplace/picoin_marketplace/marketplace.py:1033-1061 | Credits a confirmed deposit once, also when cut between its writes and rerun |
| `MarketplaceMoney.Marketplace.ConfirmDeposit` | picoin-marketplace/picoin_marketplace/marketplace.py:737-751 | Counts one deposit's confirmations and credits it once it has enough, up to the write where it is cut short |
| `MarketplaceMoney.Marketplace.ProcessConfirmations` | picoin-marketplace/picoin_marketplace/marketplace.py:713-757 | Processes the pending deposits of the chain by block and id up to a cut, and counts those seen and those credited |
| `MarketplaceMoney.Marketplace.AvailableBalance` | picoin-marketplace/picoin_marketplace/marketplace.py:1229-1244 | The signed sum of all entries of the account and token |
| `MarketplaceMoney.Marketplace.AccountBalances` | picoin-marketplace/picoin_marketplace/marketplace.py:1155-1175 | Refuses an unknown account; otherwise the signed sums over the newest 1000 entries of the account |
| `MarketplaceMoney.Marketplace.PayPaymentFromBalance` | picoin-marketplace/picoin_marketplace/marketplace.py:1177-1227 | Refuses in the source's order, for want of balance exactly when the balance is worth less than the amount, recognises a paid payment, or debits the least units that are worth it |
| `MarketplaceMoney.Marketplace.SubmitPayment` | picoin-marketplace/picoin_marketplace/marketplace.py:2145-2164 | Overwrites the status by the reported confirmations |
| `MarketplaceScanner.GapFreeIff` | picoin-marketplace/picoin_marketplace/marketplace.py:911-955 | The scanned blocks are free of gaps exactly when, up to the first completed poll, every poll that reads something has max(0, latest - batch + 1) no greater than the furthest end of the earlier ones; after it nothing is asked |
| `MarketplaceScanner.GapFreeIffInTime` | picoin-marketplace/picoin_marketplace/marketplace.py:2570-2581 | In terms of the scan: free of gaps exactly when every poll that reads something starts no later than the first block not yet scanned completely |
| `MarketplaceScanner.FirstPollCompleted` | picoin-marketplace/picoin_marketplace/marketplace.py:911-955 | When the first poll completes there is never a gap, however many later polls are cut short |
| `MarketplaceScanner.CutFirstPollLeavesGap` | picoin-marketplace/picoin_marketplace/marketplace.py:918-931 | On a registered chain a first poll cut short and a later poll skip block 12, and its deposit, which would be accepted, is not stored and lies below the checkpoint |
| `MarketplaceScanner.EachBlockOnce` | picoin-marketplace/picoin_marketplace/marketplace.py:669-711 | Polls that overlap, wherever each is cut short, store exactly the deposits of reading each block of the interval once |
| `MarketplaceScanner.RescanJoins` | picoin-marketplace/picoin_marketplace/marketplace.py:669-680 | Reading a stretch of blocks again stores nothing twice and misses nothing |
| `MarketplaceScanner.CreditedIffReached` | picoin-marketplace/picoin_marketplace/marketplace.py:713-757 | Over every run of polls, each cut between any two writes: a deposit is credited exactly when some poll finished its row for a latest block that reaches its required confirmations |
| `MarketplaceScanner.GotIffTaken` | picoin-marketplace/picoin_marketplace/marketplace.py:728-757 | The same for every stage: confirmed, referred to by the ledger, and credited exactly when some poll took the row that far with enough confirmations |
| `MarketplaceScanner.LedgerFollowsCredits` | picoin-marketplace/picoin_marketplace/marketplace.py:1033-1061 | Over every run of polls, each cut between any two writes: the ledger refers to a deposit exactly when it is credited, or confirmed and cut between the ledger entry and the status of its credit |
| `MarketplaceScanner.LateLeavesGap` | picoin-marketplace/picoin_marketplace/marketplace.py:2570-2581 | A poll that starts late leaves a block that no later poll ever reads |
| `MarketplaceRetry.CutThenUncut` | picoin-marketplace/picoin_marketplace/marketplace.py:911-955 | A poll cut between any two writes and polled again at the same latest block ends in exactly the scanner of one uncut poll |
| `MarketplaceRetry.CutOftenThenUncut` | picoin-marketplace/picoin_marketplace/marketplace.py:911-955 | The same however often the poll is cut |
| `MarketplaceRetry.CutThenLater` | picoin-marketplace/picoin_marketplace/marketplace.py:911-955 | From any sound scanner with a checkpoint, a cut poll followed by an uncut one at a later block ends as the uncut one alone: same deposits but for counts, same entries, same payments, same checkpoint |
| `MarketplaceRetry.CutLeavesNoTrace` | picoin-marketplace/picoin_marketplace/marketplace.py:911-955 | In every run with a checkpoint a cut poll before an uncut one could be left out: same outcome and same balances |
| `NativeScanner.ChainScanner.PollTransfers` | picoin-marketplace/picoin_marketplace/marketplace.py:911-955 | The poll loop, cut inside a block, in any row of confirmation processing, or before the checkpoint, does what the run statements assume |
| `NativeScanner.PollReads` | picoin-marketplace/picoin_marketplace/marketplace.py:918-955 | A poll reads at most a batch of blocks after the checkpoint, all of them unless cut in its scan, and a completed one remembers the last |
| `NativeScanner.ChainScanner.ScanBlocks` | picoin-marketplace/picoin_marketplace/marketplace.py:932-944 | The block loop stores exactly the deposits of the requests up to where it is cut short |
| `NativeScanner.ChainScanner.Import` | picoin-marketplace/picoin_marketplace/marketplace.py:929-943 | Stores a block's deposits in order and skips refused ones |
| `MarketplaceCapacity.RunKeepsMarket` | picoin-marketplace/picoin_marketplace/marketplace.py:1389-2177 | Over every run no availability is negative, and a listing without a worker has available + reserved = total |
| `MarketplaceCapacity.RunFits` | picoin-marketplace/picoin_marketplace/marketplace.py:1509-2177 | While no total is set below the reserved units, available + reserved never exceeds the total |
| `MarketplaceCapacity.StepFitsIff` | picoin-marketplace/picoin_marketplace/marketplace.py:1540-1616 | One step keeps every listing within its total exactly when it sets no total below the units then reserved |
| `MarketplaceCapacity.LoweredTotalOverbooks` | picoin-marketplace/picoin_marketplace/marketplace.py:1607-1616 | A heartbeat that lowers the total below the booked units leaves more reserved than there is |
| `MarketplaceCapacity.OverbookedRun` | picoin-marketplace/picoin_marketplace/marketplace.py:1509-1626 | The run that leads there: a worker registers two units, both are booked and paid, and a heartbeat reports one |
| `MarketplaceCapacity.ReleaseCapIdle` | picoin-marketplace/picoin_marketplace/marketplace.py:2171 | On a listing without a worker the cap of a release never acts |
| `MarketplaceCapacity.ReleaseTwice` | picoin-marketplace/picoin_marketplace/marketplace.py:2166-2177 | Releasing twice is releasing once |
| `MarketplaceDesk.Desk.CreateListing` | picoin-marketplace/picoin_marketplace/marketplace.py:1389-1435 | A new listing offers all its units |
| `MarketplaceDesk.Desk.ReservedUnits` | picoin-marketplace/picoin_marketplace/marketplace.py:1913-1923 | The units of bookings that wait for payment or run |
| `MarketplaceDesk.Desk.RegisterWorker` | picoin-marketplace/picoin_marketplace/marketplace.py:1509-1590 | Rewrites the worker's listing with what reservations leave of the total |
| `MarketplaceDesk.Desk.HeartbeatWorker` | picoin-marketplace/picoin_marketplace/marketplace.py:1592-1626 | Total as reported, on the market exactly when online, available the reported units within what reservations leave, at least none; nothing else changes |
| `MarketplaceDesk.Desk.ExpireStaleWorkers` | picoin-marketplace/picoin_marketplace/marketplace.py:1841-1875 | Takes exactly the silent workers offline and their listings off the market with nothing available |
| `MarketplaceDesk.Desk.SelectListing` | picoin-marketplace/picoin_marketplace/marketplace.py:2020-2053 | The cheapest, then oldest, then first by id of the matching candidates, or none matches |
| `MarketplaceDesk.Desk.CreateBooking` | picoin-marketplace/picoin_marketplace/marketplace.py:1925-2000 | Books units of the preferred matching listing, or changes nothing because none matches or its minimum time is longer |
| `MarketplaceDesk.Desk.ActivateBooking` | picoin-marketplace/picoin_marketplace/marketplace.py:1220-1225 | A confirmed payment starts a waiting booking |
| `MarketplaceDesk.Desk.ReleaseBooking` | picoin-marketplace/picoin_marketplace/marketplace.py:2166-2177 | Gives a held booking's units back once |
| `MarketplaceDesk.Desk.SettleBooking` | picoin-marketplace/picoin_marketplace/marketplace.py:2179-2223 | Settles a paid booking once; later calls return the first settlement |
| `MarketplaceDesk.SettlementConserves` | picoin-marketplace/picoin_marketplace/marketplace.py:2189-2195 | Fee and provider part make up the gross amount; the fee is the exact share rounded up |
| `CanonicalAmount.RoundTrip` | picoin-web/wallet.js:92-108 | Reading a printed amount returns its units up to the largest safe integer; beyond it and below zero the text is refused |
| `CanonicalAmount.UnitsDenote` | picoin-web/wallet.js:92-101 | An accepted text denotes exactly its units in millionths |
| `CanonicalAmount.UniqueNormalForm` | picoin-web/wallet.js:92-108 | Printing the units of an accepted text gives the one normal text that denotes the same decimal |
| `CanonicalAmount.CanonicalDenotes` | picoin-web/wallet.js:102-108 | A printed amount is normal and denotes its units |
| `CanonicalJson.PrintsSameIff` | picoin-web/wallet.js:72-79 | Two values print the same text exactly when they are equal as JSON values, key order aside |
| `CanonicalJsonReader.PrintedIsRead` | picoin-web/wallet.js:72-79 | A printed value is a compact text of RFC 8259, and whatever is read in it is the value, with the keys of every object strictly ascending by code unit |
| `CanonicalJsonReader.ReadsOnce` | picoin-web/wallet.js:72-79 | A compact JSON text spells at most one value |
| `CanonicalJsonReader.EscapeAppend` | picoin-web/wallet.js:73 | Strings are printed piece by piece as long as no surrogate pair is split |
| `CanonicalJsonReader.EscapeUnit` | picoin-web/wallet.js:73 | How one unit is printed: short escapes, four lower-case digits for other control units and lone surrogates, otherwise itself |
| `CanonicalJsonReader.EscapePair` | picoin-web/wallet.js:73 | A surrogate pair is printed as it is |
| `CanonicalJson.Decodes` | picoin-web/wallet.js:72-79 | A printed value determines the value and where it ends, whatever may follow it |
| `CanonicalJson.EscapeDecodes` | picoin-web/wallet.js:73 | An escaped string ends at its closing quote and determines the string |
| `CanonicalJson.JoinDecodes` | picoin-web/wallet.js:74-78 | A comma-separated list ends at its bracket and determines its parts |
| `CanonicalJson.OrderIrrelevant` | picoin-web/wallet.js:75-78 | Entries with distinct keys print the same object in whatever order they were set |

## Left out

- SelectListing: which 1000 listings the query returns is an input, and so is the order of listing ids.
- CutFirstPollLeavesGap: names one pair of polls; `GapFreeIff` covers all of them.
- PollTransfers: explicit start blocks, token transfers and imported histories are not scanned.
- CutThenLater: asks for a checkpoint, since without one a poll at a later block may start elsewhere; what that skips is `GapFreeIff`.
- RecordedPayerIff: runs without cut payments; `PayerAgreesIff` covers the others.
- AcceptDeposit: only deposits reported as detected.
- ProcessConfirmations: the order of deposit ids is an input, since the ids are hashes; time stamps of deposits are not carried.
- PayPaymentFromBalance: the booking that a payment activates is `ActivateBooking`, on the booking's own table.
- SubmitPayment: the transaction hash is not carried, and the booking it activates is `ActivateBooking`.
- SettleBooking: whether the payment is confirmed is an input.
- CreateBooking: the account check, the quote and the payment order are not part of this model.
- RunPayouts: node replies are inputs; an address that fails its format check is not modelled, nor is a transaction's fate on chain after its payout was released.
- SummarizeRoundWindowPayouts: names, block hashes and heights of rounds are not carried; `payout_spend_total` and `operator_fee_after_payout_fees` are sums of stated totals.
- SettleRow: the settlement pass is a step per row over a snapshot; the limit on fetched blocks and on checked rows is an arbitrary choice of inputs.
- PrintsSameIff: numbers are integers printed in plain decimal; fractions, very large numbers printed with an exponent, and `undefined` are not modelled.
- RoundTrip: the input is a text; other JavaScript values are converted to text first.
- `summarize_payouts`, the per-task relative of the round-window summary, which the statistics page does not use.
- Pool restart in the middle of submitting, and marketplace calls that run between another call's check and its write.
- Registration of pools, chains, tokens, accounts and wallets: they are inputs of the methods that read them.
- HTTP, JSON-RPC, retries, command lines, SQLite itself, event logging, display-only statistics and every user interface.
- Floating point and the 28-digit decimal context: amounts are exact rationals.
- The computation of the expansion, hashing, Merkle trees, signatures and encryption. Their sources are not part of this model.
