# A verified model of the exchange core

This project models the single-writer core of a limit order book exchange and proves what it keeps: the
order book with its arenas and hash indices (`src/book.rs`), margin accounting (`src/risk.rs`), the
single-threaded loop that locks, matches, settles and logs (`src/bin/exchange.rs`), the write-ahead log
with its CRC-32 (`src/wal.rs`), and the latency histogram (`src/metrics.rs`). `dafny verify dfyconfig.toml`
checks all of it.

## How it is built

Code that updates things in place is modelled in place, as classes and loops, and each is tied to a
function on values about which the laws are proved.

- `ProbeTable.dfy` is the one open-addressing table behind the three indices, generic in key, value,
  capacity and hash. It refines a finite map.
- `Arena.dfy`, `Links.dfy` and `LevelArena.dfy` are the two arenas with their free lists and the intrusive
  doubly linked lists. `BookRep.dfy`, `BookSteps.dfy`, `BookSizes.dfy` and `BookLookup.dfy` state the
  representation invariant of the book on snapshots of the arenas and prove that each step keeps it.
- `OrderBook.dfy` is the book itself, updated in place, and `BookFacts.dfy` what its methods need to know
  about snapshots. Every operation keeps the invariant and equals a function of `Matcher.dfy`, the price-time
  matcher on sequences of levels.
- `PriceTime.dfy`, `BookLaws.dfy`, `BookSafety.dfy`, `BookEffects.dfy`, `Reports.dfy`, `PriceBounds.dfy` and
  `ClientIndex.dfy` prove the laws of that matcher: priority, self-trade prevention, quantity balance, price
  bounds in numbers, uncrossed books, atomic refusals, exact cancels, best prices and depth, the client index.
- `Risk.dfy` is the risk engine, with each operation given as a function on the account map. `Ledger.dfy`,
  `Exposure.dfy`, `Margin.dfy` and `BookExposure.dfy` prove what settlement takes and gives, and how it
  moves exposure.
- `Exchange.dfy` is one step of the live loop, and of replay, as functions on a state of three books, a
  counter and the accounts; `ExchangeLoop.dfy` is the same in place and equals them. `Accounting.dfy`,
  `DoubleRefunds.dfy`, `Runs.dfy` and `Bounds.dfy` prove safety over whole runs, `ClientRuns.dfy` and
  `SlotRuns.dfy` what runs do to the client index and to the order slots, `ClientReach.dfy` when a cancel by
  client id gets to its order, `Counters.dfy` how match ids and order ids count up; `Payments.dfy` proves who
  pays whom, `Solvency.dfy` and `Wealth.dfy` what double refunds leave intact, and what they cost to the unit.
  `Replay.dfy` proves that the log rebuilds the state. `Scenarios.dfy` and `FullBook.dfy` are concrete runs in
  which a promise fails.
- `Crc.dfy`, `Wal.dfy`, `WalLayout.dfy` and `Recovery.dfy` go from bytes to states; `Metrics.dfy` is the histogram.

Integers are unbounded naturals. Products are checked when funds are locked and saturated in settlement,
and the model writes that out. Balances (`src/risk.rs:48-49`, `src/risk.rs:98-99`) and level totals
(`src/book.rs:206`) grow by unchecked additions. `Bounds.dfy` proves that none of these overflows over
any run whose deposits, and what is refunded twice (see below), stay below 2^64, and that nothing in a
settlement saturates while nothing is refunded twice.

## What a caller is assumed to respect

Commands are limit, market or cancel orders; a submission has side 0 or 1, and no id or one at least the
counter. `Exchange.Command` states this scope. `src/gateway.rs:118-134` drops orders with a wrong magic and
sets every submission's id to 0, but checks neither side nor type: the rest is an assumption.

## Where the code falls short of what it promises

- A market buy whose first fill is cheaper than its own price, and which no order of its own stops, is
  refunded the improvement twice: by settlement (`src/risk.rs:208-211`) and by the market refund
  (`src/risk.rs:166-173`), which is documented to release only the unexecuted remainder
  (`src/risk.rs:149-150`). `Scenarios.MarketBuyCreatesMoney` is a run
  in which this creates 5 USD; `DoubleRefunds.AccountingHoldsIff` and `Runs.BalancedIff` say exactly when the
  accounting holds, by a condition on the book before the command. Assets are exact in every run
  (`Solvency.RunAssets`), and USD is off by exactly what was refunded twice (`Wealth.RunWealth`).
- A submission that the engine refuses for want of slots stays in the log, and replay does not unlock its
  funds (`src/book.rs:1174-1197` against `src/bin/exchange.rs:253-255`), so the log no longer rebuilds the
  state. `Replay.ReplayIsLive` and `Replay.RebuildsIff` prove that this is the only case, and
  `Replay.RefusedExactlyWhen` says when it happens. `FullBook.FullBookBreaksReplay` is a run in which it
  does: 4096 sells at different prices, and one more.
- When no level slot is left the order slot taken before it is lost (`src/book.rs:913-922`). The model counts
  such slots as leaked: every order slot is free, queued or leaked. `Reports.SlotLostExactlyWhen` says which
  submissions lose one, and `SlotRuns.LeakedIs` that a run has lost exactly one for each of them and never
  gets one back.
- Two live orders of one user with the same client id share one client index entry, which the end of either
  removes (`src/book.rs:1004`, `src/book.rs:1048`), so that the other can no longer be cancelled by its
  client id: `Scenarios.ClientIdIsLost` is such a run. `ClientIndex.SubmitCompleteIff` and
  `ClientRuns.CompleteIff` prove that every live order has its own entry exactly as long as no order comes to
  rest under the client id of a live one, a condition on the book before the submission.
- A cancel takes its number for an exchange id first (`src/book.rs:1015-1021`), and exchange ids count up from
  1, so a client id that is another live order's exchange id cancels that order, or is refused if it is
  another user's, although every entry is right: `Scenarios.ClientIdIsMistaken` is such a run.
  `ClientReach.ReachedIff` says for each order when its client id gets to it, and
  `ClientReach.ReachedAlwaysIff` for whole runs: exactly when no order comes to rest under a live client id,
  with a client id that is the exchange id of an order that stays, or with an exchange id that is the client
  id of one.
- An order of type deposit passes the gateway. The live loop locks its funds like those of a submission and
  logs it, and replay credits it as a deposit (`src/book.rs:1157-1161`): `Replay.DepositNotRebuilt` proves that
  replay then never gives the live state, and `Scenarios.DepositIsInvented` is an example.
- The histogram documents a resolution of 6.25% (`src/metrics.rs:2`); reporting midpoints, it is within 1/32.

## Model

| member | source | states |
|---|---|---|
| `ProbeTable.Table.constructor` | src/book.rs:288-294 | A new table is empty and well formed for any capacity and any hash into it. |
| `ProbeTable.Table.Probe` | src/book.rs:319-338 | The probe from the home slot ends at the key or, because the load cap leaves an empty slot, at the first gap. |
| `ProbeTable.Table.Lookup` | src/book.rs:342-354 | Lookup answers exactly what the finite map holds. |
| `ProbeTable.Table.Insert` | src/book.rs:307-340 | Insert fails exactly at the 80% cap and otherwise updates the finite map in one key. |
| `ProbeTable.Table.Remove` | src/book.rs:357-392 | Remove takes exactly one key out of the finite map, or changes nothing. |
| `ProbeTable.Table.ShiftBack` | src/book.rs:368-387 | The backward shift restores gap-free probing from every home slot, with cyclic wrap-around. |
| `Arena.OrderArena.constructor` | src/book.rs:46-64 | All slots are on the free list, handed out in order from slot 0, and none is active; needs 0 < capacity < 2^32 - 1. |
| `Arena.OrderArena.Allocate` | src/book.rs:66-83 | Allocation fails exactly when the free list is empty and otherwise activates its top with fresh links. |
| `Arena.OrderArena.Deallocate` | src/book.rs:85-94 | Deallocation of an active slot makes it the head of the free list, and the next to be handed out. |
| `LevelStore.LevelArena.Allocate` | src/book.rs:150-169 | A level slot comes from the free list as an empty level of the price, or EngineFull. |
| `LevelStore.LevelArena.Deallocate` | src/book.rs:171-184 | A level slot goes back to the free list. |
| `LevelStore.LevelArena.PushOrder` | src/book.rs:195-208 | Pushing is the link update of both neighbours, with total and count increased. |
| `LevelStore.LevelArena.PopOrder` | src/book.rs:210-226 | Popping unlinks the head of the queue, or answers None on an empty one. |
| `LevelStore.LevelArena.UnlinkOrder` | src/book.rs:228-246 | Unlinking joins the neighbours of a node in the middle and updates head, tail, total and count. |
| `Links.QueuePush` | src/book.rs:195-208 | After a push the level record describes the FIFO with the node at its end: links, total and count. |
| `Links.QueueUnlink` | src/book.rs:228-246 | After an unlink the level record describes the FIFO without the node, and other nodes keep their data. |
| `Links.LadderLink` | src/book.rs:700-757 | Linking a level at position k inserts it into the price ladder there. |
| `Links.LadderUnlink` | src/book.rs:760-780 | Unlinking a level removes it from the price ladder. |
| `BookRep.LevelStepKeeps` | src/book.rs:954-1006 | A change to one queue keeps ladders, FIFOs, price index and order homes consistent. |
| `BookRep.CloseKeeps` | src/book.rs:839-843 | Dropping an empty level keeps the structure consistent. |
| `BookRep.CloseAbs` | src/book.rs:839-843 | Dropping an empty level removes exactly that level from the represented side. |
| `BookRep.OpenKeeps` | src/book.rs:922-925 | Opening a level at a new price keeps the structure consistent. |
| `BookRep.OpenAbs` | src/book.rs:922-925 | Opening a level inserts exactly one empty level into the represented side. |
| `BookSteps.ReduceStep` | src/book.rs:993-995 | A partial fill keeps the invariant and changes one quantity of the represented book. |
| `BookSteps.UnlinkStep` | src/book.rs:1038 | Unlinking an order keeps the invariant and removes that order from its level. |
| `BookSteps.RemoveStep` | src/book.rs:1038-1048 | Taking an order out of its queue, the arena and the order index keeps the full invariant. |
| `BookSteps.RemoveLastStep` | src/book.rs:1038-1048 | The same when its level becomes empty and is dropped with it. |
| `BookSteps.EnqueueStep` | src/book.rs:928-930 | Queueing an active, unqueued node and indexing it keeps the full invariant and appends it to its level. |
| `BookSteps.OpenIndexed` | src/book.rs:922-925 | Opening a level keeps the full invariant. |
| `BookSizes.IdsSize` | src/book.rs:929 | The order index never holds more ids than there are order slots, so its insert cannot fail. |
| `BookSizes.PricesSize` | src/book.rs:923 | The price index never holds more prices than there are level slots, so its insert cannot fail. |
| `BookSizes.ClientsSize` | src/book.rs:930 | Every client entry has its own live order, so the ignored insert result is never an error. |
| `BookLookup.EntryLeads` | src/book.rs:1027-1038 | Every order index entry leads to the active node of that id, which is on the queue of its price, at a place on one of the two ladders. |
| `BookFacts.CancelFacts` | src/book.rs:1027-1048 | That ladder is the one the entry names as its side, and taking the node from there is what deleting the order by id means. |
| `BookLookup.IdsAreLive` | src/book.rs:1015-1032 | The order index holds exactly the ids of the resting orders, so the stale-entry branch is unreachable. |
| `OrderBooks.OrderBook.constructor` | src/book.rs:678-691 | A new book is well formed and represents the empty book. |
| `OrderBooks.OrderBook.NextOrderId` | src/book.rs:693-698 | Hands out the counter and advances it. |
| `OrderBooks.OrderBook.TradeHead` | src/book.rs:963-1005 | One fill against the oldest order of a level: trade, quantities, and removal of a filled maker from queue, arena and both indices. |
| `OrderBooks.OrderBook.MatchLevel` | src/book.rs:941-1008 | The matching loop on one level terminates and refines the queue matcher: trades, remaining quantity, stop flag, queue, client index. |
| `OrderBooks.OrderBook.UnlinkPriceLevel` | src/book.rs:760-780 | Takes a level out of its ladder and moves the best pointer if it led. |
| `OrderBooks.OrderBook.LinkPriceLevel` | src/book.rs:700-757 | Puts a level at its place in the strictly sorted ladder. |
| `OrderBooks.OrderBook.CloseLevel` | src/book.rs:839-843 | Unlinks, unindexes and frees an empty level. |
| `OrderBooks.OrderBook.SweepLevel` | src/book.rs:827-848 | One turn of the matching loop of a side: match the best level and drop it if emptied. |
| `OrderBooks.OrderBook.MatchOpposite` | src/book.rs:811-889 | The matching loop over the opposite side terminates and refines the side matcher. |
| `OrderBooks.OrderBook.StampOrder` | src/book.rs:800-805 | Stamps an order without an id from the counter and counts the id of one that brings it; the counter ends above it. |
| `OrderBooks.OrderBook.LevelFor` | src/book.rs:919-926 | The level found or opened for a resting order is on that order's own side. |
| `OrderBooks.OrderBook.OpenPrice` | src/book.rs:922-925 | Takes a level slot, indexes the price and links it into the ladder. |
| `OrderBooks.OrderBook.LinkOpened` | src/book.rs:924 | Puts the fresh level at its place on the ladder of its side. |
| `OrderBooks.OrderBook.Enqueue` | src/book.rs:928-930 | Queues a node on its level and enters both indices, neither of which can be full. |
| `OrderBooks.OrderBook.RestAt` | src/book.rs:919-930 | With its slot taken an order is placed on its side and in the client index, or refused exactly when its price is new and no level slot is left. |
| `OrderBooks.OrderBook.RestOrder` | src/book.rs:912-931 | Resting refines the resting function, including both ways to be refused and the leaked slot. |
| `OrderBooks.OrderBook.RemoveOrder` | src/book.rs:1037-1048 | Removes an order from queue, arena and indices, and its level if that empties it. |
| `OrderBooks.OrderBook.Resolve` | src/book.rs:1015-1021 | Which index entry a cancel request stands for. |
| `OrderBooks.OrderBook.Cancel` | src/book.rs:1010-1051 | Cancelling refines the cancel function: the order, both errors, and the new book. |
| `OrderBooks.OrderBook.SubmitOrder` | src/book.rs:800-937 | A submission refines the submit function: book, report or error, and the trades appended. |
| `OrderBooks.OrderBook.Process` | src/book.rs:782-938 | The whole operation keeps the full representation invariant and refines the price-time matcher, for every order with a fresh id. |
| `OrderBooks.OrderBook.DepthOf` | src/book.rs:1071-1081 | The ladder walk returns the first n levels of a side with their true totals and counts. |
| `OrderBooks.OrderBook.GetDepth` | src/book.rs:1070-1096 | Both sides of the depth. |
| `OrderBooks.OrderBook.GetBbo` | src/book.rs:1054-1068 | The best price of each side with its total quantity. |
| `PriceTime.SweepIsWalk` | src/book.rs:811-889 | Matching level by level is one walk over all opposite orders in price-time order. |
| `PriceTime.SweepIsWaterfall` | src/book.rs:811-889 | Price-time priority, quantity balance and self-trade prevention of a sweep at once: orders fill oldest-best first up to the first out of bounds or own order, which stays. |
| `BookLaws.SweepSuffix` | src/book.rs:839-843 | A sweep leaves a suffix of the priority order with at most its first order reduced, and drops exactly the consumed client entries. |
| `BookSafety.PlacePrices` | src/book.rs:919-926 | A level is opened exactly when the price is new on that side. |
| `BookSafety.PlaceSideOk` | src/book.rs:700-757 | Placing an order keeps the side strictly sorted with non-empty levels. |
| `BookSafety.SweepClears` | src/book.rs:812-859 | After a sweep without a stop the opposite side no longer crosses the remainder. |
| `BookSafety.RestKeepsWf` | src/book.rs:912-931 | Resting such a remainder keeps the book well formed and uncrossed. |
| `BookSafety.SubmitKeepsWf` | src/book.rs:800-937 | Every submission with a fresh id keeps the book well formed: sorted, uncrossed, distinct ids, live client entries, slot bounds. |
| `BookEffects.RefusalChangesNothing` | src/book.rs:912-930 | A submission is refused exactly when it would rest untouched and no slot is left; then no trade was made and no order, level or entry changed. |
| `BookEffects.CancelIsExact` | src/book.rs:1010-1051 | A successful cancel removes exactly one order of the requester and keeps the order of all others; a failed one changes nothing. |
| `BookEffects.SubmitThenCancel` | src/book.rs:1010-1051 | Resting without a trade and cancelling by exchange id restores the levels of the book. |
| `Reports.PlacedBehindEquals` | src/book.rs:195-208 | A resting order queues behind all orders of its price or better and before all worse ones. |
| `Reports.SubmissionIsExact` | src/book.rs:891-937 | What an accepted submission reports and leaves: executed and remaining quantities, when self-trade prevention fires, the drained opposite side, and where the remainder rests. |
| `PriceBounds.TradesKeepPrice` | src/book.rs:812-859 | No trade of a limit sell is below its price and none of a limit buy above, nor of a market order that has a price. |
| `PriceBounds.NothingMissed` | src/book.rs:812-859 | When an order is refused, or something is left of it that nothing stopped, every order left on the other side is strictly worse than its price; against a market order without a price none is left. |
| `PriceBounds.StoppedExactlyWhen` | src/book.rs:891-901 | Self-trade prevention fires exactly when something is left and the first order left on the other side is the submitter's own and within the price, in numbers. |
| `Counters.BookTradesCount` | src/book.rs:972-973 | Over any sequence of submissions and cancels on one book the trades have the match ids 1, 2, 3 and so on. |
| `Reports.RestsExactlyWhen` | src/book.rs:911-931 | A submission comes to rest exactly when it is a limit order that no own order stops, the orders in reach do not fill it, and it finds its slots: a condition on the book before the call. |
| `Reports.RefusedOnBook` | src/book.rs:912-922 | A submission is refused exactly when it is a limit order for something that misses the best opposite price and finds no slot. |
| `Reports.SlotLostExactlyWhen` | src/book.rs:913-922 | An order slot is lost exactly by a refused submission that found one, and never by any other. |
| `ClientIndex.SubmitCompleteIff` | src/book.rs:929-930 | A submission leaves every live order with its own client entry exactly when it does not come to rest under the client id of a live order of its user. |
| `ClientIndex.CancelKeepsComplete` | src/book.rs:1048 | A cancel leaves every live order with its own client entry. |
| `ClientReach.ReachedIff` | src/book.rs:1015-1021 | A cancel by client id gets to its order exactly when the number is that order's exchange id, or is no order's exchange id and the client entry is right. |
| `ClientReach.ReachedUnlessTaken` | src/book.rs:1015-1021 | With a complete index, exactly when no other live order has that number for an exchange id. |
| `ClientReach.SubmitReachedIff` | src/book.rs:919-930 | After a submission all client ids still get to their orders exactly when it does not come to rest, or comes to rest under a client id that is neither live nor the exchange id of an order that stays, with an exchange id that is no such order's client id. |
| `ClientReach.CancelReached` | src/book.rs:1010-1051 | A cancel leaves all client ids with their orders. |
| `ClientIndex.ReusedClientIdIsLost` | src/book.rs:1048 | Cancelling one of two live orders with the same client id leaves the other resting without an entry. |
| `BookEffects.ProcessCancels` | src/book.rs:790-798 | A cancel order goes by its id or else by its client id, succeeds exactly when that names a live order of its user, and reports what was left of it. |
| `Reports.BestIsTop` | src/book.rs:1054-1068 | The best price of a side is none exactly when nothing rests there, and otherwise the highest bid or lowest ask with everything that rests at it. |
| `Reports.DepthIsBest` | src/book.rs:1070-1096 | Depth lists the best prices in order with everything that rests at each, and leaves out only worse prices, only when full. |
| `Risk.RiskEngine.constructor` | src/risk.rs:32-36 | No accounts. |
| `Risk.RiskEngine.DepositFunds` | src/risk.rs:38-50 | A deposit creates the account if needed and adds both amounts; an unknown symbol drops it whole. |
| `Risk.RiskEngine.LockOrderFunds` | src/risk.rs:62-111 | Locking succeeds exactly when all checks pass, in the order of the checks, and then moves the margin. |
| `Risk.RiskEngine.UnlockOrderFunds` | src/risk.rs:114-141 | Unlocking moves price times quantity, or the quantity, back, saturating. |
| `Risk.RiskEngine.UnlockCancelledOrderMargin` | src/risk.rs:144-147 | Unlocking by order; an undecodable side counts as a buy. |
| `Risk.RiskEngine.RefundMarketOrderRemainder` | src/risk.rs:151-182 | The refund of a market order from its budget and running totals. |
| `Risk.RiskEngine.SettleTrade` | src/risk.rs:186-221 | Settlement of one trade between two accounts. |
| `Margin.LockAnswers` | src/risk.rs:62-111 | Funds can be locked exactly when the order has a quantity, a listed symbol, an account and the funds, and a buy a value between 1 and 2^64 - 1; each of the three reasons for a refusal is given exactly when it applies. |
| `Margin.DepositEffect` | src/risk.rs:38-50 | A deposit of a listed symbol adds to the free balances of that one account, which starts empty; any other is dropped whole. |
| `Margin.LockEffect` | src/risk.rs:62-111 | A successful lock moves exactly the margin of the order and conserves all totals. |
| `Margin.UnlockEffect` | src/risk.rs:114-141 | An unlock within what is locked moves exactly that and conserves all totals. |
| `Ledger.SettleAllIs` | src/risk.rs:186-221 | Settling trades one by one is one piece of bookkeeping for each account, whatever it has locked: all its gains, and its dues or else all it had locked. |
| `Ledger.SettleConserves` | src/risk.rs:186-221 | Settlement conserves total USD and the total of every asset when everything due is locked. |
| `Ledger.SettleLosesNothing` | src/risk.rs:186-221 | When only the assets due are locked it still conserves every asset and loses no USD. |
| `Exposure.SweepExposure` | src/book.rs:975-995 | What makers lose in exposure is exactly what the trades took from them. |
| `Exposure.SweepTrades` | src/book.rs:975-991 | Every trade names the right taker and an existing maker that is another user, within the price bound and both quantities; match ids count up. |
| `Margin.AfterMatchIs` | src/bin/exchange.rs:168-235 | What stays locked after an accepted submission is what rests, but for what makers fell short of; assets are conserved, and where makers had locked their dues USD grows only by what the improvement of a market buy overdraws. |
| `BookExposure.SubmitExposure` | src/book.rs:782-938 | How a submission moves the exposure of every user in its book. |
| `BookExposure.CancelExposure` | src/book.rs:1010-1051 | A cancel takes exactly the cancelled order's exposure. |
| `Accounting.CancelStepKeeps` | src/bin/exchange.rs:92-127 | A cancel keeps locks equal to exposure and conserves everything; a failed one changes nothing. |
| `Accounting.RefusedStep` | src/bin/exchange.rs:253-267 | A submission refused by the engine changes no account and no resting order. |
| `Accounting.AcceptedStep` | src/bin/exchange.rs:141-252 | An accepted submission keeps the books well formed, and locks and totals up to the surplus of the command. |
| `Accounting.LiveStepAccounts` | src/bin/exchange.rs:87-269 | Every admitted command: books well formed, assets conserved, locks and USD off by exactly the surplus. |
| `Accounting.LiveStepBooks` | src/bin/exchange.rs:87-269 | Every admitted command keeps all three books well formed, whatever the accounts hold. |
| `Accounting.StepIsClean` | src/bin/exchange.rs:87-269 | Locks stay equal to exposure iff the surplus is zero or nothing of the owner rests; USD is conserved iff the surplus fits in what the owner had locked. |
| `DoubleRefunds.SurplusArises` | src/risk.rs:166-173 | A surplus arises iff the command is a market buy whose first foreign ask is cheaper than its own price and which is not stopped by an own order. |
| `DoubleRefunds.AccountingHoldsIff` | src/bin/exchange.rs:224-235 | Locks equal exposure and USD is conserved across a command iff it is not such a market buy. |
| `Runs.RunKeepsBooks` | src/bin/exchange.rs:87-269 | In every reachable state all three books are sorted, uncrossed and consistent. |
| `Runs.RunIsSafe` | src/bin/exchange.rs:87-269 | After every admitted run without a double refund, locked USD and locked assets equal exposure in all books, and USD and assets are exactly the deposits. Only the USD half needs the restriction, see `Solvency.RunAssets`. |
| `Runs.BalancedIff` | src/bin/exchange.rs:87-269 | An admitted run is balanced at every point iff no command was refunded twice. |
| `Scenarios.MarketBuyCreatesMoney` | src/risk.rs:205-211 | A concrete run, balanced up to a market buy at 10 against a sell at 5, after which there are exactly 5 USD more than were deposited. |
| `ClientRuns.StepCompleteIff` | src/bin/exchange.rs:87-269 | Across any admitted command every live order keeps its own client entry exactly when no live client id is reused. |
| `ClientRuns.CompleteIff` | src/bin/exchange.rs:87-269 | At every point of an admitted run every live order has its own client entry iff no order came to rest under a live client id. |
| `ClientReach.StepReachedIff` | src/bin/exchange.rs:87-269 | Across any admitted command every live order can still be cancelled by its client id exactly when no order comes to rest under a live client id or with a number that is one order's client id and another's exchange id. |
| `ClientReach.ReachedAlwaysIff` | src/bin/exchange.rs:87-269 | At every point of an admitted run every live order can be cancelled by its client id iff no such order ever came to rest. |
| `Scenarios.ClientIdIsMistaken` | src/book.rs:1010-1021 | A concrete run in which no client id is reused and every entry is right, and a cancel by client id takes out another order. |
| `Scenarios.ClientIdIsLost` | src/book.rs:1010-1021 | A concrete run: two sells under one client id, one cancelled by it; the other rests and cancelling it by that id fails and changes nothing. |
| `SlotRuns.StepLeaks` | src/book.rs:913-922 | One admitted command loses one order slot exactly when it is a submission that finds an order slot and no level slot. |
| `SlotRuns.LeakedIs` | src/book.rs:913-922 | The slots lost in a run are exactly as many as such submissions: cancels, fills and refusals for other reasons lose none, and none comes back. |
| `Accounting.LetInExactlyWhen` | src/bin/exchange.rs:129-147 | A submission leaves the state and the log as they are exactly when it cannot be afforded. |
| `Accounting.CancelledExactlyWhen` | src/bin/exchange.rs:92-127 | A cancel leaves them as they are exactly when its id names no live order of its user in the book, and is logged otherwise. |
| `Payments.SubmissionPays` | src/risk.rs:186-221 | After an accepted submission every account has paid or been paid exactly what its trades say, at the makers' prices, and what is neither traded nor resting is free again. |
| `Payments.RunPays` | src/bin/exchange.rs:164-235 | So in every reachable state, for every account. |
| `Counters.RunTradesCount` | src/book.rs:972-973 | In every book the trades of an admitted run have the match ids 1, 2, 3 and so on; no id occurs twice. |
| `Counters.RunIdsCount` | src/bin/exchange.rs:143-145 | In a run whose submissions bring no id, those let in are logged with the ids 1, 2, 3 and so on. |
| `Solvency.StepIsSolvent` | src/bin/exchange.rs:87-269 | Every admitted command, double refunds included, keeps locked assets equal to resting sells and locked USD within resting buys, conserves every asset and loses no USD. |
| `Solvency.RunAssets` | src/bin/exchange.rs:87-269 | After every admitted run, with or without double refunds, locked assets are exactly the resting sells and every asset totals exactly its deposits. |
| `Solvency.RunUsd` | src/bin/exchange.rs:87-269 | After every admitted run no account has more USD locked than its resting buys stand for, and there is no less USD than was deposited. |
| `Wealth.SubmissionFrees` | src/bin/exchange.rs:168-235 | Over a submission, the USD a buy had locked is free again or behind its resting remainder, a sell frees what its trades cost, and a market buy frees its improvement once more. |
| `Wealth.StepWealth` | src/bin/exchange.rs:87-269 | Every admitted command changes free USD and the value of resting buys together by exactly what it refunds twice. |
| `Wealth.RunWealth` | src/bin/exchange.rs:87-269 | After every admitted run free USD and the value of resting buys together are exactly the deposits and what was refunded twice. |
| `Wealth.WealthIff` | src/bin/exchange.rs:87-269 | A run ends with the wealth that was deposited iff no command was refunded twice; accounts hold at least the deposits and at most what was refunded twice on top. |
| `Bounds.RunFitsIn64` | src/book.rs:195-208 | In a run whose deposits, and what was refunded twice, stay below 2^64, no balance and no level total overflows. |
| `Bounds.NothingSaturates` | src/risk.rs:186-221 | Where locks equal exposure and totals are below 2^64, no product, lock or running total of a settlement saturates or overflows. |
| `Bounds.RunNeverSaturates` | src/risk.rs:186-221 | So over runs: in a run without a double refund whose deposits stay below 2^64, nothing in the settlement of its next command does. |
| `Replay.SubmitErased` | src/book.rs:782-938 | Matching does not depend on connections. |
| `Replay.ReplayIsLive` | src/book.rs:1151-1201 | Replaying a logged command gives the live state up to connections iff the engine did not refuse it; an unlogged command changed nothing. |
| `Replay.DepositNotRebuilt` | src/book.rs:1157-1161 | An order of type deposit without an id is logged live and credited by replay, which then never gives the live state. |
| `Scenarios.DepositIsInvented` | src/book.rs:1157-1161 | A concrete one: live, 10 USD stay locked with nothing at rest; after replay there are 20 USD and a lot. |
| `Replay.RefusedExactlyWhen` | src/book.rs:912-930 | The engine refuses exactly a limit order that does not reach the best opposite level and finds no slot. |
| `Replay.LogRebuilds` | src/book.rs:1151-1201 | Replaying the log of a run rebuilds books, accounts and counter if the engine never was full. |
| `Replay.RebuildsIff` | src/bin/exchange.rs:253-267 | Every prefix of a run is rebuilt iff the engine never refused a command. |
| `FullBook.FullBookBreaksReplay` | src/book.rs:918-922 | A concrete run: 4096 sells at distinct prices are rebuilt from the log, one more is refused, loses a slot, and the log no longer rebuilds the state. |
| `Replay.LogIsRecoverable` | src/book.rs:1151-1201 | The log of an admitted run is accepted by recovery and rebuilds the run's end. |
| `ExchangeLoops.MultiAssetEngine.constructor` | src/book.rs:1113-1122 | Three empty books that share no memory, and counter 1. |
| `ExchangeLoops.MultiAssetEngine.NextOrderId` | src/book.rs:1124-1128 | Hands out the counter and advances it. |
| `ExchangeLoops.MultiAssetEngine.Process` | src/book.rs:1131-1148 | Routes to the book of the symbol, stamps a missing id and counts ids; the other books are untouched. |
| `ExchangeLoops.MultiAssetEngine.CancelOrder` | src/book.rs:1204-1215 | Routes a cancel to the book of the symbol. |
| `ExchangeLoops.CoreLoop.Finish` | src/bin/exchange.rs:169-235 | The settlement loop with its running totals, then release or refund. |
| `ExchangeLoops.CoreLoop.CancelResting` | src/bin/exchange.rs:94-96 | Cancel in the book, then release the margin. |
| `ExchangeLoops.CoreLoop.Execute` | src/bin/exchange.rs:164-255 | Match, settle, and unlock a refused order in the live loop only. |
| `ExchangeLoops.CoreLoop.Handle` | src/bin/exchange.rs:87-269 | One turn of the live loop: new state and what is appended to the log. |
| `ExchangeLoops.CoreLoop.ReplayOrder` | src/book.rs:1151-1201 | Replay of one logged order. |
| `ExchangeLoops.CoreLoop.Serve` | src/bin/exchange.rs:87-269 | The live loop over any sequence of admitted commands. |
| `ExchangeLoops.CoreLoop.Recover` | src/bin/exchange.rs:64-71 | The recovery loop over the orders read back. |
| `Crc.TableIs` | src/wal.rs:11-44 | All 256 table constants are eight register shifts of their index. |
| `Crc.ByteStep` | src/wal.rs:51-52 | One table step on a byte is eight bit-serial steps. |
| `Crc.ComputeCrc32` | src/wal.rs:48-55 | The table-driven loop returns the bit-serial reflected CRC with polynomial 0xEDB88320 for every byte sequence. |
| `Crc.CheckValue` | src/wal.rs:48-55 | The checksum of the digits 1 to 9 is 0xCBF43926, the check value of the CRC-32 of IEEE 802.3, and that of nothing is 0. |
| `Crc.DamageDetected` | src/wal.rs:48-55 | Equal-length payloads that differ only within 32 consecutive bits have different checksums. |
| `Crc.WindowDetected` | src/wal.rs:48-55 | In particular those that differ only within four consecutive bytes. |
| `Wal.OrderRoundTrip` | src/wal.rs:122 | Decoding the 48 bytes of an order gives the order back. |
| `Wal.HeaderRoundTrip` | src/wal.rs:64-71 | Decoding the 24 bytes of a record header gives the header back. |
| `WalLayout.OrderLayout` | src/types.rs:93-104 | In the 48 bytes of an order each field stands little-endian at its offset: id 0, price 8, quantity 16, user 24, client id 32, side 40, type 41, symbol 42, magic 44, padding 46 and 47. |
| `WalLayout.HeaderLayout` | src/wal.rs:64-71 | In the 24 bytes of a record header: sequence id 0, timestamp 8, length 16, checksum 20. |
| `WalLayout.FileHeaderLayout` | src/wal.rs:57-62 | A log starts with the bytes 31 4C 41 57 01 00 00 00. |
| `WalLayout.DecodedOrder` | src/wal.rs:205 | Each field of a decoded order is the sum of its bytes times powers of 256, from its offset. |
| `WalLayout.DecodedHeader` | src/wal.rs:186 | So is each field of a decoded record header. |
| `WalLayout.ParseOnBytes` | src/wal.rs:157-210 | For any bytes: reading fails exactly without the eight header bytes, and otherwise gives the records up to the first that is cut short, of another length or with another checksum, each field from its place in the file. |
| `Wal.ReadAll` | src/wal.rs:157-210 | The parse loop returns exactly what parsing is defined to be, for every byte sequence. |
| `Wal.LogRoundTrip` | src/wal.rs:157-210 | A written log is read back whole. |
| `Wal.TruncationKeepsPrefix` | src/wal.rs:185-194 | Any truncation that keeps the file header yields the longest prefix of whole records. |
| `Wal.DamageKeepsPrefix` | src/wal.rs:196-203 | Damage within 32 consecutive payload bits of record i yields exactly the records before it, whatever follows. |
| `Wal.FourBytesAreDamage` | src/wal.rs:196-203 | Damage within four consecutive payload bytes is such damage. |
| `Wal.WalWriter.constructor` | src/wal.rs:80-115 | Opening writes the header of a new log or resumes after the last record; on an untorn log the counter continues it. |
| `Wal.WalWriter.WriteOrder` | src/wal.rs:118-136 | Appends one record with the next sequence id; an untorn log with consecutive ids stays one. |
| `Recovery.CrashRecovery` | src/bin/exchange.rs:61-79 | The whole records of a log cut anywhere are accepted by recovery, and replaying them rebuilds a state the live loop went through. |
| `Metrics.BucketMonotone` | src/metrics.rs:32-48 | The bucket map is monotone on all values. |
| `Metrics.BucketRoundTrip` | src/metrics.rs:51-64 | The representative of each of the 544 buckets lies in that bucket. |
| `Metrics.RelativeError` | src/metrics.rs:51-64 | Below 2^37 the representative is within 1/32 of the sample. |
| `Metrics.BucketInRange` | src/metrics.rs:45-46 | Every value has a bucket below 544. |
| `Metrics.LatencyHistogram.constructor` | src/metrics.rs:21-29 | An empty histogram. |
| `Metrics.LatencyHistogram.Record` | src/metrics.rs:67-79 | Buckets hold the saturated counts of the samples; count, sum, minimum and maximum are those of the samples. |
| `Metrics.LatencyHistogram.ValueAtRank` | src/metrics.rs:81-97 | For any samples with unsaturated counts the scan returns the representative of the bucket of the sample of that rank in sorted order, within 1/32 of it while samples are below 2^37. |
| `Metrics.RankIn` | src/metrics.rs:89-94 | The first bucket that brings the count up to a rank holds the sample of that rank. |

## Left out

- The TCP gateway, the egress dispatcher, channels and threads: commands arrive as a sequence and the log receives them in order.
- Acknowledgements, fills, rejects and best-price broadcasts sent to clients: constructors of messages, no state.
- File handling of the log (buffering, fsync, paths): the file is its bytes, and opening a missing or empty file is the same.
- Records appended after a torn tail: the writer does not truncate it, and nothing is claimed about reading them.
- The extra id drawn for the recovery message (`src/bin/exchange.rs:72`): replay equality is stated before it.
- Orders of type Deposit that reach the live loop, beyond their replay: the statements about accounting assume that deposits are made through the risk engine.
- Sides other than 0 and 1 in statements about accounting: the risk engine and the book disagree about them. The refinement of the book itself covers them.
- Submissions that bring the id of a resting order: they overwrite its index entry. Ids at least the counter are covered.
- Wrap-around of the order id and trade id counters at 2^64, and of log sequence ids.
- The concrete hash functions: every table result holds for any hash into the capacity.
- The separate text of the three index tables and of the bid and ask branches: each is one algorithm with its differences as parameters.
- The symbol of a book and the arenas' active counters, which nothing reads.
- ValueAtRank: takes the rank as an integer; the rounding of a percentage to a rank in floating point is not modelled.
- Throughput and averages of the histogram report, timestamps and telemetry.
- Conversions between byte orders of orders and trades: the log layout is little-endian, as on the platforms the repository targets.
- The load generator and market maker binaries.
