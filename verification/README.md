# A verified model of the TWAMM pair

A pair holds two reserves that trade by the constant product formula, and two pools of long term orders. An order
sells its token at a constant rate until a block at an interval boundary. Nothing happens block by block: whenever the
pair is called it catches up, stopping at every block where some order ends, selling each pool's lumped rate against
the reserves, handing the proceeds to the other pool through a single reward factor, and retiring the rates that end.
Blocks to stop at come from a binary search tree kept in a mapping.

The model has two layers.

- **Values.** `OrderPools.PoolState`, `ExpiryIndex.IndexState`, `Execution.CoreState`, `Orders.OrdersState` and
  `PairOperations.PairState` are the contract's storage as values, with one function for each operation. `None` is a
  revert: a failed `require`, an underflow, a division by zero or a transfer the balance does not cover.
- **Storage.** `OrderPools.OrderPool`, `BinarySearchTrees.BinarySearchTree`, `LongTermOrdersLib.LongTermOrders` and
  `PairContract.Pair` update fields and mappings in place, in the order the contracts do, and each method is proved
  to have the effect of its function. The tree's recursive procedures work on the mapping of nodes with parent links;
  a ghost tree says what the links spell out, including while deletion leaves them malformed.

Everything else is proved about the values: first order by order (`OrderPoolLedger`, `Distribution`), then for one
execution (`Pricing`, `Execution`, `Solvency`, `IndexRefinement`), for each operation (`OrderInvariants`,
`PairInvariants`, `Liquidity`, `LiquidityLaws`, `ExecutionLaws`; `CallEffects`: the whole answer and the whole new
state of every call, amounts by the inequalities that single them out), for every run of calls whatever (`EveryRun`:
product, share value, funding, index; `SellSide` and `SalesLaws`: order tables, sell-side conservation, when the lumped
rates fall short and what follows; `OrderAccounts`: what each order is paid; `Custody`: every token in and out, and
whose the orders are) and for every admissible run (`PairRuns`: rate equality, the reward ledger, solvency, success).

## What is assumed

- **Runs.** `executeVirtualOrdersUntilSpecifiedBlock` accepts the block it has already reached
  (contracts/libraries/LongTermOrders.sol:330-334), and retiring a block does not clear what is recorded to end there
  (contracts/libraries/OrderPool.sol:63-65). Executing twice at a block where orders end therefore subtracts their rate
  twice. The statements about the reward ledger, solvency and success assume that no call that succeeds does this
  (`Solvency.Clean`, `SalesLaws.AdmissibleRun`), which a caller can read off the storage before the call. No guard is
  added to the operations. `SalesLaws.RunKeepsRatesIff` shows that the assumption is exactly what the equality of the
  lumped rates and the live orders' rates needs; the sell side, what each order is paid, and everything in `EveryRun`
  and `LiquidityLaws` do without it. `RepeatedExpiry` follows a run from deployment in which it is broken:
  `RepeatLosesALiveOrder` shows the lumped rate below that of a live order, `RepeatBreaksSolvency` the claims of
  two orders exceeding what the pair holds, and `RepeatStopsThePair` that nothing executes any more once those orders
  are due. The router's `addLiquidity` always executes twice at one block (contracts/TWAMM.sol:165-184), so at a block
  where orders end it is not admissible.
- **Integers** are unbounded and every floor division stands where the contract has it. The 60.18 fixed-point
  operations are taken by their documented integer meaning (`Mul` rounds half up, `Div`, `Sqrt` and `ToUint` round
  down); every chain the order pool computes is proved to be a single floor division.
- **Tokens** move exactly the amounts asked for, and the two tokens of a pair differ. `held` is the pair's balance in
  the token contracts. The router moves the inputs of a call to the pair before making it, so `PairOperations.Step`
  receives them first; in storage `Pair.Perform` does both. The caller's share balance, the current block and the
  factory's fee settings are parameters.
- **Block 0** is the tree's null link, so a key is positive unless the tree is empty. Expiries always are.
- **Reverts.** A value function yields `None` and the run goes on from the state before the call. A method that
  returns `ok == false` says nothing about the state it leaves, because the transaction undoes it.
- **Books** (`Execution.Books`) are running totals of what each pool deposited, sold, refunded, received and paid. The
  contract does not store them; they are there to state conservation.

Where code and comment disagree the model follows the code: the comment at contracts/Pair.sol:166 says that minting
keeps the ratio of tokens to shares. `Liquidity.AddKeepsRatioIff` shows that it does so exactly when the payment is not
rounded, and otherwise falls slightly to the disadvantage of the shares already out.

## Model

| member | source | states |
|---|---|---|
| `PairRuns.RunsAreSolvent` | contracts/libraries/LongTermOrders.sol:263-322 | In every state an admissible run of a pair in the invariant reaches, the balance of each token covers its reserve, all that the orders selling it have yet to sell, and all that the other pool's orders could claim in it. |
| `PairRuns.RunsFromDeployment` | contracts/Pair.sol:43-373 | Every run from deployment ends funded, with a complete index and its books in order; its lumped rates are its live orders' rates if and only if it was admissible, and then it ends in the invariant and solvent. |
| `PairRuns.RunsBalanceTheirBooks` | contracts/libraries/OrderPool.sol:34-131 | After every run, what was sold, refunded and is still to be sold stays within what was deposited; after an admissible one the lumped rate is the sum of the live orders' rates, and what was paid out and is owed stays within what came in. |
| `SalesLaws.RunsConserveSales` | contracts/libraries/LongTermOrders.sol:131-275 | After every run whatever, sold plus refunded plus still to be sold stays within the deposits; the lumped rate never exceeds the live orders' rates, and at every block to come exactly the rates of the orders that end there are recorded. |
| `SalesLaws.StepKeepsBooks` | contracts/libraries/OrderPool.sol:44-95 | Every call that succeeds keeps tables, index and sell side, and moves the shortfall of each lumped rate by exactly what it retires a second time. |
| `SalesLaws.RunKeepsRatesIff` | contracts/libraries/LongTermOrders.sol:330-334 | From agreeing rates, the lumped rates are the live orders' rates at the end of a run if and only if the run is admissible. |
| `SalesLaws.ShortfallStopsThePair` | contracts/libraries/OrderPool.sol:63-64 | Once a lumped rate has fallen short and the pool's last order is due, no call that executes to that block or past it ever succeeds again. |
| `SalesLaws.ShortPoolStopsExecution` | contracts/libraries/OrderPool.sol:63-64 | Execution to or past the last expiry of a pool whose lumped rate is short reverts. |
| `SellSide.AdvanceKeepsBooked` | contracts/libraries/OrderPool.sol:59-66 | Paying and retiring keep the recorded endings and sell at most what is left to sell; the shortfall grows by exactly a repeated ending. |
| `SellSide.ScanKeepsSellSide` | contracts/libraries/LongTermOrders.sol:354-369 | So does a whole execution, stop by stop. |
| `SellSide.RateIsRecorded` | contracts/libraries/OrderPool.sol:54-55 | In every run a live order's rate is within what is recorded to end at its expiry. |
| `PairRuns.RunsRetireEveryRate` | contracts/libraries/OrderPool.sol:44-66 | After every admissible run there are horizons past the last expiry, and up to any of them the rates recorded to end at the blocks to come sum to the lumped rate. |
| `EveryRun.RunsKeepIndexComplete` | contracts/libraries/LongTermOrders.sol:325-370 | After every run whatever, every block to come at which an order ends is a key, no key lies before the interval reached, and no list a report left behind names a block to come. |
| `PairRuns.StepKeepsInvariant` | contracts/Pair.sol:111-373 | Every admissible call succeeds exactly when its caller meets the listed requirements, so no subtraction, division or payout can fail; it keeps the invariant, never lowers the product of the reserves unless it changes liquidity, and keeps the value of a share while no fee is taken and no shares are minted. |
| `PairRuns.RunKeepsInvariant` | contracts/Pair.sol:111-373 | Every admissible run keeps the invariant; once there are shares and reserves there always are. |
| `EveryRun.RunKeepsProduct` | contracts/libraries/LongTermOrders.sol:281-303 | No run of swaps, orders, claims and executions whatever lowers the product of the reserves or empties a reserve. |
| `EveryRun.RunKeepsShareValue` | contracts/Pair.sol:187-232 | With no protocol fee, no run of swaps, orders, claims, executions and removals lowers product of reserves / supply squared, however often a block is executed. |
| `EveryRun.StepKeepsProduct` | contracts/libraries/LongTermOrders.sol:281-303 | No single call but a change of liquidity lowers the product of the reserves, changes the supply or empties a reserve. |
| `EveryRun.RunStaysFunded` | contracts/Pair.sol:111-232 | After every run whatever, where there are shares there are reserves of both tokens, and shares never run out again. |
| `EveryRun.DriveKeepsProduct` | contracts/libraries/LongTermOrders.sol:354-369 | Execution along any list of expiries keeps both reserves positive and their product from falling. |
| `PairRuns.ClosedOrdersAreNeverPaid` | contracts/libraries/LongTermOrders.sol:179-180 | A closed order can be neither cancelled nor claimed after any run, by anyone. |
| `PairRuns.LastClaimCloses` | contracts/libraries/LongTermOrders.sol:210-248 | A cancel closes the order, and so does a claim at or after its expiry. |
| `PairRuns.InvariantIsSolvent` | contracts/libraries/LongTermOrders.sol:263-322 | The scaled ledgers imply solvency in whole tokens, order by order. |
| `Custody.RunsAccountForEveryToken` | contracts/Pair.sol:111-373 | Over any run, what reached the pair of each token less what its calls answered that they paid is exactly what it holds. |
| `Custody.StepAccounts` | contracts/libraries/LongTermOrders.sol:214-256 | Every call, failed ones included, moves both balances by what reached the pair and what the call answers, and by nothing else. |
| `Custody.RunKeepsOrders` | contracts/libraries/LongTermOrders.sol:147-163 | Over any run no order is lost, and none changes its owner, its tokens, its blocks or its rate. |
| `Custody.OrdersBelongToTheirSenders` | contracts/libraries/LongTermOrders.sol:147-180 | Whoever placed an order is entered as its owner, and whatever calls follow nobody else can cancel or claim it. |
| `Custody.OnlyTheOwnerIsPaid` | contracts/libraries/LongTermOrders.sol:179-235 | A cancel or a claim by anyone but the owner entered for the order fails in every pair. |
| `CallEffects.ExecutionTrades` | contracts/libraries/LongTermOrders.sol:263-322 | One execution sells what each lumped rate comes to, buys for each pool the largest amount the constant product allows given both sales (if and only if, over all amounts), splits it 30 / 9970 with both parts rounded down, raises reserves and reward factors by exactly that and retires exactly what ends. |
| `CallEffects.ExecuteDoes` | contracts/libraries/LongTermOrders.sol:325-370 | The public execution moves the core as the scan of the blocks does, takes exactly the passed intervals out of the index, and changes nothing else. |
| `CallEffects.AdvanceDoes` | contracts/libraries/OrderPool.sol:34-66 | A payment and a retirement in one pool: the factor grows by amount x 10^22 / rate rounded down or not at all at rate zero, is recorded for the block, the rate falls by what ends, all else stays. |
| `CallEffects.SwapDoes` | contracts/Pair.sol:350-373 | From the executed pair, a swap pays p with 10000 p <= 9970 x < 10000 (p + 1) for the largest x the product allows, takes p out of reserve and balance, adds the input to both, and changes nothing else. |
| `CallEffects.InitialDoes` | contracts/Pair.sol:111-140 | First liquidity becomes reserves and balances, its mean becomes the supply, and the mark is set exactly while there is a fee recipient. |
| `CallEffects.AddDoes` | contracts/Pair.sol:144-183 | From the executed pair, an add mints exactly the given shares and, for the fee recipient, the largest number within its part of the growth up to the reserves before the add; the payment is the part of each reserve, rounded down, and the mark is the new mean. |
| `CallEffects.TakeDoes` | contracts/Pair.sol:187-232 | From the executed pair, a removal burns exactly the given shares, mints the fee on the reserves before it, and pays the part of each reserve, rounded down, out of reserve and balance. |
| `CallEffects.MintFeeDoes` | contracts/Pair.sol:82-108 | The fee mints the largest number within its part, or nothing, and resets the mark exactly when there is no recipient. |
| `CallEffects.PlacementTerms` | contracts/libraries/LongTermOrders.sol:130-136 | An order ends intervals + 1 intervals after the last boundary at or before now, and its rate is the largest that the scaled amount covers over its blocks. |
| `CallEffects.PlaceDoes` | contracts/libraries/LongTermOrders.sol:120-165 | From the executed pair, placing enters the next id for its sender with both tokens, block, expiry and rate, adds it to its pool and to the recorded endings, makes the expiry a key, takes the tokens in, and changes nothing else. |
| `CallEffects.PoolCancelDoes` | contracts/libraries/OrderPool.sol:69-95 | A pool cancel gives the largest refund and payment that rate x blocks left and rate x growth allow, and takes exactly the order out. |
| `CallEffects.PoolWithdrawDoes` | contracts/libraries/OrderPool.sol:100-131 | A pool withdrawal pays for the growth up to the factor recorded at expiry and clears the rate, or before that up to the current factor, from which the order then earns. |
| `CallEffects.CancelDoes` | contracts/libraries/LongTermOrders.sol:168-218 | From the executed pair, a cancel answers and sends unsold and purchased amounts to the owner, takes the order out of its pool, enters sold and bought amounts, drops the expiry exactly when nothing ends there, closes the order, and changes nothing else. |
| `CallEffects.ClaimDoes` | contracts/libraries/LongTermOrders.sol:221-259 | From the executed pair, a claim answers and sends what the order is due, enters it with what has been sold until now or the expiry, closes the order from its expiry on, and changes nothing else. |
| `IndexRefinement.IndexRefinesScan` | contracts/libraries/LongTermOrders.sol:343-369 | Execution driven by the tree's report equals visiting every block in turn and stopping where orders end, even when the report starts with entries left from an earlier use of the same root. |
| `Execution.DriveRefinesScan` | contracts/libraries/LongTermOrders.sol:354-369 | Following an ascending list that covers every stop equals the block scan, whatever else is on the list. |
| `Execution.DriveSkipsPast` | contracts/libraries/LongTermOrders.sol:354-367 | Stale entries in front of the list have no effect. |
| `Execution.SplitScan` | contracts/libraries/LongTermOrders.sol:354-369 | Stopping the scan at a block where orders end and going on is what one scan does. |
| `IndexRefinement.ProcessedKeysAhead` | contracts/libraries/BinarySearchTree.sol:281-303 | After execution exactly the keys past its interval are left, all of them ahead of it. |
| `IndexRefinement.ExecutionKeepsIndexed` | contracts/libraries/LongTermOrders.sol:343-369 | Execution leaves the index complete and trimmed, with no stale entry for a block to come. |
| `IndexRefinement.InsertKeepsIndexed` | contracts/libraries/LongTermOrders.sol:138-140 | Entering an order's expiry before executing keeps the index complete and adds exactly that key. |
| `IndexRefinement.DropKeepsIndexed` | contracts/libraries/LongTermOrders.sol:201-208 | Dropping an expiry at which neither pool records a rate keeps the index complete. |
| `ExecutionLaws.SplitExecution` | contracts/libraries/LongTermOrders.sol:345-369 | Executing to a block where orders end and then on equals executing straight on: same reserves, pools, recorded factors, totals and keys, and the same reverts. |
| `ExecutionLaws.RepeatExecutionMovesNothing` | contracts/libraries/LongTermOrders.sol:263-370 | Executing at the block already reached moves no token and no reward factor, lowers each lumped rate by exactly what ends there, and reverts exactly when that underflows. |
| `ExecutionLaws.ExecutionSucceedsIff` | contracts/libraries/LongTermOrders.sol:325-370 | With reserves, execution succeeds if and only if the block is between the last one and now and each lumped rate covers all that is recorded to end on the way. |
| `LiquidityLaws.RouterQuoteIsBooked` | contracts/TWAMM.sol:165-184 | In any pair that has executed to the current block, the amounts the router quotes are the amounts the pair books after executing again. |
| `RepeatedExpiry.RepeatLosesALiveOrder` | contracts/libraries/OrderPool.sol:63-65 | A run from deployment that executes block 10 twice leaves a lumped rate of half the rate of the order still live. |
| `RepeatedExpiry.RepeatBreaksSolvency` | contracts/libraries/OrderPool.sol:34-42 | Two blocks further in that run, the reserve of B and what the two orders can claim in it exceed the pair's balance of B. |
| `RepeatedExpiry.RepeatStopsThePair` | contracts/libraries/OrderPool.sol:63-64 | In that run no call that executes to block 15 or past it ever succeeds again. |
| `Solvency.RepeatKeepsAccountsIff` | contracts/libraries/LongTermOrders.sol:330-334 | A repeated execution keeps the lumped rates equal to the live orders' rates if and only if nothing ends at its block. |
| `Solvency.RepeatExecution` | contracts/libraries/LongTermOrders.sol:263-322 | One repeated trade-and-retire step: what it keeps, what it subtracts and when it reverts. |
| `Solvency.TradeConserves` | contracts/libraries/LongTermOrders.sol:281-314 | Reserve plus proceeds handed out never exceed reserve plus tokens sold in, and fall short by at most one unit. |
| `Solvency.ReservesAfter` | contracts/libraries/LongTermOrders.sol:294-303 | A virtual trade with its fee leaves both reserves positive and does not lower their product. |
| `Solvency.ExecuteAtKeepsInvariant` | contracts/libraries/LongTermOrders.sol:263-322 | One execution over an interval in which no order ends cannot revert and keeps ledgers, backing and product. |
| `Solvency.ScanKeepsInvariant` | contracts/libraries/LongTermOrders.sol:325-370 | A whole execution, stop by stop, cannot revert, keeps the invariant and leaves the orders alone. |
| `Solvency.SettleKeepsInvariant` | contracts/libraries/LongTermOrders.sol:214-215 | What a sound pool refunds and pays is within the pair's balances, which go on backing the rest. |
| `Solvency.DepositKeepsInvariant` | contracts/libraries/LongTermOrders.sol:142-144 | An order whose tokens have arrived keeps both pools sound and the balances backed. |
| `OrderPoolLedger.AdvanceKeepsSound` | contracts/libraries/OrderPool.sol:34-66 | Paying a pool and retiring a block cannot underflow, raises what is owed by at most the payment, and lowers what is left to sell by exactly lumped rate times blocks. |
| `OrderPoolLedger.LiveRatesAfter` | contracts/libraries/OrderPool.sol:63-64 | What one retirement subtracts is exactly the rate of the orders that end there. |
| `OrderPoolLedger.ObligationsAfter` | contracts/libraries/LongTermOrders.sol:269-275 | What the orders have left to sell shrinks by the lumped rate times the blocks passed. |
| `OrderPoolLedger.OwedAfterPayment` | contracts/libraries/OrderPool.sol:34-42 | A payment raises the sum of all unpaid claims by at most its amount. |
| `OrderPoolLedger.DepositKeepsSound` | contracts/libraries/OrderPool.sol:45-56 | A deposit takes on exactly rate times blocks to sell and owes nothing yet. |
| `OrderPoolLedger.ForeignIdKeepsSound` | contracts/libraries/LongTermOrders.sol:144-164 | An id handed out for the other pool changes nothing. |
| `OrderPoolLedger.WithdrawKeepsSound` | contracts/libraries/OrderPool.sol:100-131 | A withdrawal succeeds exactly for a positive rate, pays no more than the order was owed, and leaves every other claim alone. |
| `OrderPoolLedger.CancelKeepsSound` | contracts/libraries/OrderPool.sol:69-95 | A cancel succeeds exactly before expiry; refund and payment stay within what the order had left to sell and was owed. |
| `OrderPoolLedger.LumpedRateEndsEventually` | contracts/libraries/OrderPool.sol:44-66 | There are horizons past the last expiry, and up to any of them counting live orders and counting recorded endings give the same lumped rate. |
| `OrderPoolLedger.NoEndingNoOrder` | contracts/libraries/OrderPool.sol:90-94 | A live order's rate is within the lumped rate and within what is recorded to end at its expiry. |
| `Distribution.ShareIsProRata` | contracts/libraries/OrderPool.sol:34-131 | Whatever happens in the pool, an order has never been paid more than its exact share of the payments made while it was live; right after any claim, and once closed by its last claim or its cancel, it is short by under one unit a claim plus rate / 10^22 a payment. |
| `Distribution.PartialClaimsNeverGain` | contracts/libraries/OrderPool.sol:100-131 | p claims, a cancel among them, pay at most what a single claim at the time of the last would have paid, and at least that less p - 1. |
| `Distribution.EventsTrack` | contracts/libraries/OrderPool.sol:34-131 | The account of one order is kept through every interleaving of payments, repeated executions, deposits, claims and cancels, its own included. |
| `OrderAccounts.OrdersArePaidProRata` | contracts/libraries/LongTermOrders.sol:193-241 | For every order of every run, the amount entered as bought is what the pool's events pay it: never above its exact share of the payments, and for a closed order short by under one unit a claim plus rate / 10^22 a payment. |
| `OrderAccounts.RunIsEvents` | contracts/libraries/LongTermOrders.sol:120-370 | Every run acts on each order's pool as a sequence of payments that stop at its expiry, deposits, claims and cancels, and enters exactly what it pays. |
| `OrderAccounts.ScanIsEvents` | contracts/libraries/LongTermOrders.sol:305-318 | Execution pays and retires each pool stop by stop and never passes the expiry of a live order. |
| `OrderInvariants.ExecuteUntilKeepsInvariant` | contracts/libraries/LongTermOrders.sol:325-370 | In a funded pair execution succeeds exactly from the last block up to now, keeps the invariant and equals the scan. |
| `OrderInvariants.UnfundedCannotExecute` | contracts/libraries/LongTermOrders.sol:396-401 | Without a reserve and a rate of either token the trade divides by zero and execution reverts. |
| `OrderInvariants.LongTermSwapKeepsInvariant` | contracts/libraries/LongTermOrders.sol:120-165 | A funded order is accepted whenever the clock has not run backwards, is entered under the next id for its sender with both its tokens and its submit block, leaves the other orders and the balances alone, and keeps the invariant. |
| `OrderInvariants.InsertThenExecute` | contracts/libraries/LongTermOrders.sol:138-140 | The expiry entered for a new order survives the execution that follows. |
| `OrderInvariants.SoldAndRefundedWithinDeposit` | contracts/libraries/LongTermOrders.sol:136-198 | Recorded sales and a cancel's refund stay within the deposit and lose less than two tokens and 1/10000 of a token a block to rounding. |
| `OrderInvariants.CancelExecutedKeepsInvariant` | contracts/libraries/LongTermOrders.sol:177-217 | A cancel succeeds exactly for the owner of an open, unexpired order with something to return; exactly what is unsold and what is claimable leaves the balances, the order is closed and no other is touched. |
| `OrderInvariants.WithdrawExecutedKeepsInvariant` | contracts/libraries/LongTermOrders.sol:230-258 | A withdrawal succeeds exactly for the owner of an open order with something to claim, takes exactly that out of the balance of the bought token, and leaves the order open exactly until its expiry. |
| `ExpiryTree.InsertAddsKey` | contracts/libraries/BinarySearchTree.sol:24-61 | Insertion keeps the search order and adds exactly the key. |
| `ExpiryTree.DeleteRemovesKey` | contracts/libraries/BinarySearchTree.sol:123-230 | Deletion keeps the search order and removes exactly the key. |
| `ExpiryTree.DeleteRootRemovesRoot` | contracts/libraries/BinarySearchTree.sol:146-217 | Replacing a root by its predecessor, its left child or its right subtree removes exactly the root. |
| `ExpiryTree.DeleteRootShrinks` | contracts/libraries/BinarySearchTree.sol:244-248 | Each deletion makes the tree one smaller, so trimming ends. |
| `ExpiryTree.RootAfterDelete` | contracts/libraries/BinarySearchTree.sol:146-230 | Which key is the root after a deletion: the old one unless it was deleted, then the greatest key to its left, or else the root of its right subtree. |
| `ExpiryTree.RootAfterTrim` | contracts/libraries/BinarySearchTree.sol:256-279 | Trimming keeps a root outside the range; a root within it gives way to the greatest key below the range, or, where there is none, to what trimming leaves at the root of its right subtree. |
| `ExpiryTree.TrimLeavesOutside` | contracts/libraries/BinarySearchTree.sol:232-279 | Trimming leaves exactly the keys outside the range although it descends one side at a time. |
| `ExpiryTree.BetweenListsRange` | contracts/libraries/BinarySearchTree.sol:63-121 | The report of a range is strictly ascending and has exactly the keys of the range. |
| `ExpiryIndex.ReportListsRange` | contracts/libraries/BinarySearchTree.sol:281-303 | From a fresh list a report yields exactly the keys of the range in ascending order; the future list is the end followed by exactly the keys within 50400 blocks of it; the range is trimmed away. |
| `ExpiryIndex.ReportedLists` | contracts/libraries/BinarySearchTree.sol:281-303 | Over a stale list a report is the stale entries followed by the range, and no other root's list changes. |
| `ExpiryIndex.PushAscending` | contracts/libraries/BinarySearchTree.sol:84-94 | Appending an ascending run drops at most a first element that repeats the end of the list. |
| `ExpiryIndex.ReportDoes` | contracts/libraries/BinarySearchTree.sol:281-303 | One report over any index: under which root it is filed, what stays in front of it, the keys of the range in order, the upcoming keys up to 50400 blocks past the end, the keys left, and every other root untouched. |
| `ExpiryIndex.BackwardReportDoes` | contracts/libraries/BinarySearchTree.sol:281-303 | A range that runs backwards restarts the lists of the root and trims nothing. |
| `ExpiryIndex.FirstInsert` | contracts/libraries/BinarySearchTree.sol:51-61 | The first key becomes root, reported root and upcoming entry, and its first report starts with no stale entry. |
| `ExpiryIndex.LaterInsert` | contracts/libraries/BinarySearchTree.sol:51-61 | A further key changes neither the root nor any list. |
| `BinarySearchTrees.BinarySearchTree.InsertHelper` | contracts/libraries/BinarySearchTree.sol:24-49 | The links spell out the tree with the key added, and no other slot changes. |
| `BinarySearchTrees.BinarySearchTree.Insert` | contracts/libraries/BinarySearchTree.sol:51-61 | Insertion in storage is insertion in the index. |
| `BinarySearchTrees.BinarySearchTree.DeleteNodeHelper` | contracts/libraries/BinarySearchTree.sol:123-144 | The subtree's links spell out the tree without the key, also when entered in the middle of a replacement with a parent link that points down into the subtree. |
| `BinarySearchTrees.BinarySearchTree.Predecessor` | contracts/libraries/BinarySearchTree.sol:152-155 | The walk to the right ends at the greatest key of the left subtree. |
| `BinarySearchTrees.BinarySearchTree.ReplaceByPredecessor` | contracts/libraries/BinarySearchTree.sol:156-174 | The predecessor takes over all links of the deleted node and the deleted slot is cleared. |
| `BinarySearchTrees.BinarySearchTree.ReplaceByLeftChild` | contracts/libraries/BinarySearchTree.sol:175-191 | The left child takes over all links of the deleted node. |
| `BinarySearchTrees.BinarySearchTree.DeleteLeaf` | contracts/libraries/BinarySearchTree.sol:146-217 | Deleting a node relinks its parent to the replacement, clears its slot and changes nothing outside the subtree. |
| `BinarySearchTrees.BinarySearchTree.DeleteNode` | contracts/libraries/BinarySearchTree.sol:219-230 | Storage stays a well-formed search tree that holds the old keys without the given one. |
| `BinarySearchTrees.BinarySearchTree.TrimTreeHelper` | contracts/libraries/BinarySearchTree.sol:232-254 | A subtree is trimmed in place, its parent relinked and the trimmed slots cleared. |
| `BinarySearchTrees.BinarySearchTree.TrimTree` | contracts/libraries/BinarySearchTree.sol:256-279 | Storage stays a well-formed search tree holding the trimmed keys, through changes of the root. |
| `BinarySearchTrees.BinarySearchTree.ReturnListHelperEx` | contracts/libraries/BinarySearchTree.sol:63-121 | The in-order visit that skips sides appends exactly the two ranges to the two lists of the root. |
| `BinarySearchTrees.BinarySearchTree.ProcessExpiriesListNTrimTree` | contracts/libraries/BinarySearchTree.sol:281-303 | Restarting, reporting and trimming in storage is one processing step of the index. |
| `OrderPools.OrderPool.DistributePayment` | contracts/libraries/OrderPool.sol:34-42 | The fixed-point chain in storage raises the reward factor by one floor division. |
| `OrderPools.OrderPool.DepositOrder` | contracts/libraries/OrderPool.sol:45-56 | Depositing in storage, mapping by mapping, is the deposit of the ledger. |
| `OrderPools.OrderPool.UpdateStateFromBlockExpiry` | contracts/libraries/OrderPool.sol:59-66 | Retiring a block in storage is the expiry of the ledger and reverts exactly on underflow. |
| `OrderPools.OrderPool.CancelOrder` | contracts/libraries/OrderPool.sol:69-95 | Cancelling in storage is the cancel of the ledger, with its refund, payment and reverts. |
| `OrderPools.OrderPool.WithdrawProceeds` | contracts/libraries/OrderPool.sol:100-131 | Withdrawing in storage is the withdrawal of the ledger, before and after expiry. |
| `FixedPoint.RewardPerUnit` | contracts/libraries/OrderPool.sol:37-40 | The chain of fixed-point operations behind a payment is floor(amount * 10^22 / rate). |
| `FixedPoint.ClaimIsOneDivision` | contracts/libraries/OrderPool.sol:85-88 | The three roundings of a claim amount to floor(growth * rate / 10^22). |
| `FixedPoint.RootKPositive` | contracts/Pair.sol:129-133 | Positive amounts have a positive mean, so the first liquidity mints shares. |
| `FixedPoint.RootKIsMean` | contracts/Pair.sol:129-133 | The computed shares r are the mean of both amounts a and b: r r <= a b + r / 10^18, and (r + 1 + (a + b) / 10^18) squared exceeds a b. |
| `Pricing.VirtualTradeKeepsProduct` | contracts/libraries/LongTermOrders.sol:373-404 | Two simultaneous lump sales leave both reserves positive and do not lower their product, and each side buys the largest amount the product allows with both sales counted. |
| `Pricing.TradeBuysTheMost` | contracts/libraries/LongTermOrders.sol:396-403 | An amount x can be bought for one side with both sales counted, x (other reserve + other sale) <= (reserve + own sale) other sale, if and only if x is at most what that side buys. |
| `Pricing.SwapPaysTheMost` | contracts/Pair.sol:361-367 | The payout of a swap is 9970 / 10000, rounded down, of the largest amount whose removal the product allows. |
| `Pricing.FeeSplit` | contracts/libraries/LongTermOrders.sol:295-299 | Of what is bought 30 / 10000 stay as fee and 9970 / 10000 go out, each rounded down. |
| `Pricing.SwapKeepsProduct` | contracts/Pair.sol:361-370 | An instant swap pays 9970 / 10000 of the largest amount the product allows, less than the reserve, and does not lower the product. |
| `Pricing.FeeAndNet` | contracts/libraries/LongTermOrders.sol:295-299 | Fee and proceeds together lose at most one unit of what was bought and never exceed it. |
| `Liquidity.AddThenRemoveNeverGains` | contracts/Pair.sol:166-214 | Shares minted and burnt again with no trade between return at most what was paid, however many were minted to others. |
| `Liquidity.AddKeepsRatioIff` | contracts/Pair.sol:166-168 | Minting keeps the ratio of reserve to supply if and only if the payment is not rounded, and never raises it. |
| `Liquidity.RoundedAddDilutes` | contracts/Pair.sol:166-168 | A concrete add whose payment is rounded and which lowers the ratio. |
| `Liquidity.AddsThenRemoveGainLessThanAdds` | contracts/Pair.sol:166-214 | p adds and one removal of all their shares return at most what was paid and p - 1 units, whatever was minted to others. |
| `Liquidity.AddsInPiecesGain` | contracts/Pair.sol:166-214 | Two adds of one share for which that bound is met. |
| `Liquidity.RemoveKeepsRatioIff` | contracts/Pair.sol:212-217 | Burning keeps the ratio if and only if it is not rounded, never lowers it, and pays at most the reserve. |
| `Liquidity.RemoveLeavesSome` | contracts/Pair.sol:204-217 | Burning less than all shares leaves something of a positive reserve. |
| `Liquidity.RemoveKeepsProductRatio` | contracts/Pair.sol:209-220 | Burning keeps reserve x reserve over supply squared from falling. |
| `Liquidity.FeeSharesAreLargest` | contracts/Pair.sol:98-102 | A number of shares is at most 1/(feeArg + 1) of the growth if and only if it is at most what the protocol mints. |
| `LiquidityLaws.AddThenTakeNeverGains` | contracts/Pair.sol:144-232 | In any pair, adding and taking out the same shares in one block, or in a later one while no order sells, never returns more of either token, whatever the fee settings on the way in and out. |
| `LiquidityLaws.DriveSellingNothing` | contracts/libraries/LongTermOrders.sol:354-369 | Execution that has nothing to sell leaves the reserves alone, whatever the pools and the list hold. |
| `LiquidityLaws.MintFeeTakesItsPart` | contracts/Pair.sol:82-108 | The fee mints the most shares that are within the stated part of the growth, and none without a recipient, a mark or growth. |
| `LiquidityLaws.LiquidityIsNotGrowth` | contracts/Pair.sol:135-230 | Right after liquidity is provided, added or removed, the protocol fee on the reserves is nothing, whatever the fee settings before and after. |
| `PairInvariants.DeployedInvariant` | contracts/Pair.sol:43-59 | A pair starts empty in every part, executed to its block, with the interval of that block as the only key, and in the invariant. |
| `PairInvariants.ExecuteKeepsInvariant` | contracts/Pair.sol:484-489 | The public execution succeeds exactly in a funded pair from the last block up to now. |
| `PairInvariants.ProvideInitialKeepsInvariant` | contracts/Pair.sol:111-140 | First liquidity is accepted exactly once and only with both tokens; the supply is then exactly their mean, and the pair is funded. |
| `PairInvariants.ProvideKeepsInvariant` | contracts/Pair.sol:160-182 | Added liquidity is accepted exactly when there are shares to add to; exactly the given shares and the fee are minted, tokens booked are tokens owed by the adder, and the invariant holds once they are there. |
| `PairInvariants.RemoveKeepsInvariant` | contracts/Pair.sol:203-231 | A removal within the caller's balance that leaves some shares always succeeds, burns exactly its shares, is covered by the balances and taken from them, and leaves both reserves positive. |
| `PairInvariants.SwapKeepsInvariant` | contracts/Pair.sol:350-373 | An instant swap in a funded pair cannot fail, pays 9970 / 10000 of the most the product allows out of reserve and balance, and keeps invariant and product. |
| `LongTermOrdersLib.LongTermOrders.constructor` | contracts/libraries/LongTermOrders.sol:61-77 | Storage starts with empty pools and the interval of the deployment block as the only key. |
| `LongTermOrdersLib.LongTermOrders.ExecuteVirtualTradesAndOrderExpiries` | contracts/libraries/LongTermOrders.sol:263-322 | Trading, charging, paying and retiring in storage is one execution step, with its reverts; `CallEffects.ExecutionTrades` says which amounts these are. |
| `LongTermOrdersLib.LongTermOrders.ExecuteVirtualOrdersUntilSpecifiedBlock` | contracts/libraries/LongTermOrders.sol:325-370 | The loop over the reported expiries in storage is execution driven by the list. |
| `LongTermOrdersLib.LongTermOrders.PerformLongTermSwap` | contracts/libraries/LongTermOrders.sol:120-165 | Placing an order in storage is placing it in the model: rate, expiry, execution, pool and tables; `CallEffects.PlaceDoes` says what is entered and for whom. |
| `LongTermOrdersLib.LongTermOrders.CancelLongTermSwap` | contracts/libraries/LongTermOrders.sol:168-218 | Cancelling in storage is the model's cancel, with its amounts and reverts; `CallEffects.CancelDoes` says what is sent, dropped and closed. |
| `LongTermOrdersLib.LongTermOrders.WithdrawProceedsFromLongTermSwap` | contracts/libraries/LongTermOrders.sol:221-259 | Withdrawing in storage is the model's withdrawal, with its amount and reverts; `CallEffects.ClaimDoes` says what is sent and entered. |
| `PairContract.Pair.constructor` | contracts/Pair.sol:43-59 | A deployed pair is the state runs start from, and consists of objects of its own. |
| `PairContract.Pair.MintFee` | contracts/Pair.sol:83-108 | Minting the fee in storage is the model's, branch by branch; `CallEffects.MintFeeDoes` says how much that is. |
| `PairContract.Pair.ProvideInitialLiquidity` | contracts/Pair.sol:111-140 | Storage after first liquidity is the model's state, with its reverts; `CallEffects.InitialDoes` says which. |
| `PairContract.Pair.ProvideLiquidity` | contracts/Pair.sol:144-183 | Storage after added liquidity is the model's state, with its reverts; `CallEffects.AddDoes` says how much is minted and paid. |
| `PairContract.Pair.RemoveLiquidity` | contracts/Pair.sol:187-232 | Storage after a removal is the model's state, with its reverts; `CallEffects.TakeDoes` says how much is burnt and paid. |
| `PairContract.Pair.InstantSwap` | contracts/Pair.sol:235-247 | Storage after an instant swap of either token is the model's state, with its reverts. |
| `PairContract.Pair.PerformInstantSwap` | contracts/Pair.sol:350-373 | The swap after execution: reserves, payout and revert as in the model; `CallEffects.SwapDoes` says how much is paid. |
| `PairContract.Pair.LongTermSwap` | contracts/Pair.sol:252-270 | Storage after placing an order of either token is the model's state, with its reverts. |
| `PairContract.Pair.CancelLongTermSwap` | contracts/Pair.sol:311-333 | Storage after a cancel is the model's state, with its reverts. |
| `PairContract.Pair.WithdrawProceedsFromLongTermSwap` | contracts/Pair.sol:336-347 | Storage after a withdrawal is the model's state, with its reverts. |
| `PairContract.Pair.ExecuteVirtualOrders` | contracts/Pair.sol:484-489 | Storage after an execution is the model's state, with its reverts. |
| `PairContract.Pair.Perform` | contracts/TWAMM.sol:96-185 | A transaction in storage, tokens arriving included, is one step of a run, with its reverts. |
| `PairContract.Pair.Receive` | contracts/TWAMM.sol:182-183 | Tokens the router moves to the pair raise its balance and change nothing else. |

## Left out

- RunKeepsShareValue: does not cover calls that mint shares, because the payment for them is rounded in the adder's favour and the value of a share can fall (`Liquidity.AddKeepsRatioIff`); nor runs with a protocol fee, which dilutes by design.
- RunsAreSolvent: assumes an admissible run, as said above; `RepeatedExpiry.RepeatBreaksSolvency` shows that it has to.
- AddThenTakeNeverGains: covers one block, and later ones while no order sells; after a trade the reserves have moved.
- OrdersArePaidProRata: leaves out orders whose rate rounds to zero, which are never paid.
- The router, the factory, WETH, slippage limits and deadlines (contracts/TWAMM.sol, contracts/Factory.sol, contracts/libraries/Library.sol, contracts/libraries/TransferHelper.sol), except that the router moves inputs before a call and quotes added liquidity.
- Access control and the reentrancy guard: every call is taken to come from the router, one at a time.
- The token contracts and the fixed-point library are not part of this model beyond the meaning stated above; fee-on-transfer and rebasing tokens are excluded by it.
- Overflow of 256-bit integers, gas and events.
- The commented-out exponential pricing formula (contracts/libraries/LongTermOrders.sol:405-464).
- View getters (contracts/Pair.sol:375-480) and the list of order ids of each user.
- Who holds the shares: only the supply is kept, and a removal is told its caller's balance.
- Other interval lengths: the interval is the 5 blocks the pair is built with.
- Equality of one lumped trade with a trade in every block where no order ends: with fees and rounding the contract does not compute it.
