# A verified model of one exchange symbol

This project models one symbol of the exchange from admission to settlement, and proves what its parts
keep together. `dafny verify dfyconfig.toml` verifies all of it.

1. **Order book and matching engine.** `Pools`, `PriceLevel`, `RadixTree`, `BookSide`, `BookState` and
   `OrderBook` are the heap structure: orders and levels live by value in two fixed pools, a pointer is the
   index of a pool slot, levels thread their orders through prev/next links, a radix tree per side finds
   levels by price, and the best level of each side is cached. `OrderBook.Valid` says that all of this is one
   consistent book; its ghost views say what the book holds as two price-time sequences (`PriceTime`).
   `Sweep` is the match loop as a function, with an independent closed form. `EngineSpec` is the engine as a
   state machine over values (book, log, trade file, emitted events), `MatchingEngine` the imperative engine
   proved to do exactly that, `Wal` its log.
   On top of `EngineSpec`, `Terms` says from the request, the book and the events alone what each request comes
   to, `Runs` defines whole runs, and five files prove what runs keep: `BookInvariant` (sound, sorted, never
   crossed), `LevelTotals` (what each level's kept total is ahead of its orders by), `Recovery` (the log
   rebuilds the book), `EventView` (the database's view and the published quote agree with the book) and
   `Notices` (users, database, tape and trade file are told of the same trades, and each user of his own).
2. **Reservations.** `Balances` and `DbWriter` are the balance cache and the writer's fold over database
   events, `Validation` the admission checks, `RateLimiter` the rate limit. `Reservation` joins admission,
   engine and writer and accounts for every blocked fund and share; `Cost` gives what a match costs in closed
   form, `Coverage` says exactly when what is blocked covers what is open. `Effect` tells what an event will
   take without the account it is settled on, and `Pipeline` keeps the account while admission, matching in
   any order and settlement of different requests overlap. `Wealth` says that what a slot owns changes by its
   trades alone. `Ledger` is the cache again, under every interleaving of its atomic actions.
3. **Sequencer.** `RejectionBitset` refines a set within a window; `Sequencer` interleaves workers and
   dispatcher over it and a ring, `Overrun` is the same without the window, and `Dispatch` joins the sequencer
   to the engine it drives, so that what is proved of runs holds of every interleaving. `ConnTable` is the free
   list of connection ids and the index by user.

`Witnesses` holds short lawful runs on which the exceptions below do occur.

Some things the code does are not what one might expect of it; each is stated as a theorem with its exact
condition instead of being assumed away:

- A new order or a modify with quantity 0 (admission lets a modify of quantity 0 through, `ZeroModifyPasses`)
  leaves an order with nothing left on the book, where matching would spin on it and write a trade and five
  events a turn: `BookInvariants.StepInv`, `ZeroQuantityStalls`, `StallOutput`, `ZeroModifyBreaks`.
- A same-price reduction leaves its level's kept total ahead by what it cut, until the level empties:
  `ServeLawful`.
- A cancel-and-replace logs its own CANCEL behind the MODIFY and no ADD, so replay loses the replacement if
  any of it rests: `StepRebuilds`, `RecoveryExact`, `RepricedIsLost`.
- A same-price reduction that takes exactly what was left removes the order without a database event:
  `StepAgree`, `RunAgree`, `LandingIsUntold`; its reservation then stays blocked: `RunCovers`.
- A buyer's price improvement, the unsold remainder of a market sell, and the reservation of an order refused
  for want of a pool slot stay blocked: `RunCovers` says by how much.
- A market buy reserves nothing, and a cancel-and-replace settles its fills before anything is reserved for
  it. Either leaves its own slot, and no other, short exactly when it costs more than the slot has to spare:
  `StepExact`, `RunExact`. With nothing to spare that is when a market buy meets any offer
  (`MarketBuyExact`, `MarketBuyIsShort`), and when a replacement meets an offer within its reach or cannot be
  reserved in full (`ReplacementExact`, `RaisedIsShort`).
- Releasing funds from a negative blocked balance, which a market buy leaves, takes the debt out of the
  available balance. No other step overdraws an account, and this one does exactly when the debt is more than
  is available (`ReleaseSound`, `StepAvail`, `RunAvail`), which after an unreserved purchase is when it was
  worth more than was available and blocked together (`DebtOverdraws`).
- Workers that claim ring positions out of sequence order bar the dispatcher from some accepted request for
  good, and as long as none does it moves whenever its next sequence is decided: `ClimbRun`, `StuckForever`,
  `OvertakingStalls`. So does a sequence lost to a full input queue, whose refusal the server ignores:
  `LostForever`, `LossStalls`. One worker that loses nothing decides every request: `FlowRun`, `Drains`.
- A rejection a window or more ahead of the dispatcher, which nothing in the code prevents, is taken for the
  next sequence; if that was accepted it is passed by and never executed: `OverrunConsumes`, `OverrunLoses`,
  `FloodStalls`. The invariants of `Sequencer` are about the runs in which this does not happen.
- Releasing a connection id that is already free closes the free list into a circle: `ReleaseExact`.
  Releasing one of two connections of a user slot hides the other: `AppliedFound`, `FoundRun`.

The repository's README (README.md:10) counts self-trade prevention among the duties of the admission
pipeline. In the code the match loop does it, cancelling the user's own resting order on contact; the model
follows the code.

## Model

| member | source | states |
|---|---|---|
| Pools.Pool.constructor | MatchingEngine/include/Pools.h:16-23 | every slot of the pool starts free, each named once on the free stack |
| Pools.Pool.Allocate | MatchingEngine/include/Pools.h:24-31 | hands out a free slot and no other; refuses exactly when none is free |
| Pools.Pool.Deallocate | MatchingEngine/include/Pools.h:32-44 | blanks and frees the slot; the overflow branch cannot be reached without a double free |
| PriceLevels.FifoPush | MatchingEngine/include/PriceLevel.h:12-28 | the doubly linked list becomes the old queue with the order behind it, total raised by its remainder, other nodes untouched |
| PriceLevels.FifoRemove | MatchingEngine/include/PriceLevel.h:30-52 | the list becomes the queue without its k-th order, whichever end it was at, total lowered, other nodes untouched |
| RadixTree.DecodeEncode | MatchingEngine/include/AdaptiveRadixTree.h:17-23 | decoding the big-endian bytes of a price in range gives the price back |
| RadixTree.EncodeDecode | MatchingEngine/include/AdaptiveRadixTree.h:76-82 | encoding the decoded value of a key gives the key back |
| RadixTree.LexIsNumeric | MatchingEngine/include/AdaptiveRadixTree.h:17-23 | byte-wise order of equally long keys is numeric order of their prices |
| RadixTree.MakeKey | MatchingEngine/include/AdaptiveRadixTree.h:17-23 | the shift-and-mask loop computes the big-endian encoding |
| RadixTree.AdaptiveRadixTree.Insert | MatchingEngine/include/AdaptiveRadixTree.h:42-51 | adds the level under its price, or reports a duplicate |
| RadixTree.AdaptiveRadixTree.Find | MatchingEngine/include/AdaptiveRadixTree.h:53-58 | finds exactly the level inserted under the price |
| RadixTree.AdaptiveRadixTree.Erase | MatchingEngine/include/AdaptiveRadixTree.h:60-70 | removes exactly that price, or reports it missing |
| RadixTree.AdaptiveRadixTree.MaxPrice | MatchingEngine/include/AdaptiveRadixTree.h:72-83 | decodes the greatest key to the numerically greatest price, 0 on an empty tree |
| RadixTree.AdaptiveRadixTree.MinPrice | MatchingEngine/include/AdaptiveRadixTree.h:85-96 | decodes the least key to the numerically least price, 0 on an empty tree |
| BookSides.ExtremeIsFront | MatchingEngine/include/OrderBook.h:74-81 | the extreme indexed price is the price of the first order in price-time order |
| BookStates.InsertedOk | MatchingEngine/include/OrderBook.h:60-81 | linking an order in keeps both sides' lists, levels and the id index consistent |
| BookStates.DeletedOk | MatchingEngine/include/OrderBook.h:97-140 | unlinking an order, with its level if that was its last, keeps them consistent |
| BookStates.RewrittenOk | MatchingEngine/include/OrderBook.h:43-48 | an edit in place keeps them consistent |
| BookStates.LevelsBounded | MatchingEngine/include/Pools.h:6-7 | there are never more live levels than resting orders |
| OrderBooks.OrderBook.constructor | MatchingEngine/include/OrderBook.h:32-35 | the empty book is consistent |
| OrderBooks.OrderBook.SpareLevel | MatchingEngine/include/OrderBook.h:173-184 | while an order is being inserted the level pool is never exhausted |
| OrderBooks.OrderBook.GetOrCreatePriceLevel | MatchingEngine/include/OrderBook.h:163-187 | finds the price's level or makes a blank one from the pool |
| OrderBooks.OrderBook.InsertOrder | MatchingEngine/include/OrderBook.h:60-95 | the order's side gains it behind all prices at least as good, the other side is untouched, and the book, its index, pools and best level stay consistent |
| OrderBooks.OrderBook.RemovePriceLevelIfEmpty | MatchingEngine/include/OrderBook.h:204-221 | an emptied level leaves the index and goes back to the pool; any other stays |
| OrderBooks.OrderBook.RemoveOrder | MatchingEngine/include/OrderBook.h:97-140 | exactly that id leaves its side and the index, its slot is freed, and the best level is right again |
| OrderBooks.OrderBook.FindOrder | MatchingEngine/include/OrderBook.h:142-150 | finds the resting order with the id, or none if there is none |
| OrderBooks.OrderBook.GetOrderAtBestPrice | MatchingEngine/include/OrderBook.h:37-41 | the head of the cached best level is the first order of the side in price-time order |
| OrderBooks.OrderBook.BestBidPrice | MatchingEngine/include/OrderBook.h:152-155 | the highest resting buy price, 0 if none |
| OrderBooks.OrderBook.BestAskPrice | MatchingEngine/include/OrderBook.h:157-160 | the lowest resting sell price, 0 if none |
| OrderBooks.OrderBook.ConsumeOrder | MatchingEngine/include/OrderBook.h:43-48 | the order's remainder and its level's total fall together |
| OrderBooks.OrderBook.LevelTotal | MatchingEngine/include/PriceLevel.h:12-52 | a live level's kept total is the sum of its queue's remainders plus its gap, the ghost account that each edit of the book moves by what the total missed |
| OrderBooks.OrderBook.Identities | MatchingEngine/include/OrderBook.h:142-150 | ids are unique across the book, and the index knows exactly the resting ones |
| OrderBooks.OrderBook.Capacity | MatchingEngine/include/Pools.h:24-31 | the order pool is exhausted exactly when the book holds its capacity |
| Sweeps.Progress | MatchingEngine/include/MatchingEngine.h:583-651 | every turn lowers the incoming remainder, or leaves it and shortens the opposite side |
| Sweeps.SweepExit | MatchingEngine/include/MatchingEngine.h:583-602 | the loop ends filled, with the other side empty, or with the next price out of reach |
| Sweeps.ZeroQuantityStalls | MatchingEngine/include/MatchingEngine.h:360-374 | against a resting order of quantity zero any number of turns leaves side and incoming order as they were, each turn a trade of nothing |
| Sweeps.TurnsSweep | MatchingEngine/include/MatchingEngine.h:583-652 | the loop cut off after some number of turns is the whole loop once it has stopped |
| Sweeps.SweepConserves | MatchingEngine/include/MatchingEngine.h:634-651 | incoming quantity is kept as rest plus traded, opposite quantity as rest plus traded plus cancelled |
| Sweeps.SweepFair | MatchingEngine/include/MatchingEngine.h:591-636 | fills are between different users, at the resting price, within the limit, from best to worse |
| Sweeps.SweepLeaves | MatchingEngine/include/MatchingEngine.h:580-652 | what the loop leaves of the j-th order is what a closed form over the orders before it says |
| Sweeps.SweepTakes | MatchingEngine/include/MatchingEngine.h:580-652 | the incoming order is filled by exactly what other users offer within its reach, up to its quantity |
| Sweeps.SweepInOrder | MatchingEngine/include/MatchingEngine.h:580-652 | the i-th act is about the i-th order in price-time order, for the closed form's quantity, and the sweep stops no earlier and no later |
| Sweeps.SweepLimit | MatchingEngine/include/MatchingEngine.h:580-652 | a limit order meets no resting price worse than its own, to trade or to cancel its user's order; if it ends with a remainder and the other side not empty it is a limit order and the next price is worse, so a market order ends filled or with that side empty |
| Sweeps.ReachExact | MatchingEngine/include/MatchingEngine.h:591-602 | within reach are exactly the orders at prices no worse than the limit, all of them for a market order |
| Terms.AddDoes | MatchingEngine/include/MatchingEngine.h:118-211 | a new order is refused only by a full book; it rests if and only if it is a limit order that its fill notices do not add up to, as asked for less those, behind every order at a price as good; a market order's user is acknowledged exactly the remainder, any other nothing |
| Terms.CancelDoes | MatchingEngine/include/MatchingEngine.h:218-261 | a cancel takes out exactly the order named and acknowledges what was left of it, and does nothing else |
| Terms.ModifyDoes | MatchingEngine/include/MatchingEngine.h:263-332 | at the same price and a smaller quantity the order keeps its place and time and loses the difference, or goes if that is all that is left, or nothing changes if it is more; otherwise it is entered anew at the price and quantity asked for, behind its price, less what it is filled by; with the acknowledgements in order |
| Terms.ModifyTerms | MatchingEngine/include/MatchingEngine.h:282-328 | so an order that rests after a successful modify stands at the price and quantity asked for, as the same user's on the same side, live or replayed |
| Terms.SweepAcks | MatchingEngine/include/MatchingEngine.h:604-632 | a match acknowledges the cancellation of exactly those of the user's own orders that it meets, each with what was left of it |
| Terms.StepStamped | MatchingEngine/include/MatchingEngine.h:134-135 | every event of a request carries the same time, a new order's own if it has one, else the clock's |
| Terms.StepLogs | MatchingEngine/include/MatchingEngine.h:166-205 | every request but a refused new order leaves its record in the log, known order or not, and whatever else it logs are cancellations |
| Terms.RawDoes | ems/core/Dispatcher.h:50-70 | a raw request is a cancel if marked so, else a modify if marked so, else the entry of an order with its own user, side, kind, price, quantity and time |
| Notices.RunTold | MatchingEngine/include/MatchingEngine.h:432-489 | over every lawful run, each notice and acknowledgement is of the user who entered the order; each trade is told alike by two database fills, two notices, a print and a line of the trade file, in order, between different users' orders on different sides, at the resting price and within the limit last asked for |
| Notices.NoticeRight | MatchingEngine/include/MatchingEngine.h:377-395 | wherever a fill notice stands it is its order's user's, and its price, quantity, remainder and state are those of the database fill of that order |
| Notices.PrintsAreLines | MatchingEngine/include/MatchingEngine.h:476-489 | the tape and the trade file agree, the k-th print with the k-th line |
| Notices.RunSums | MatchingEngine/include/MatchingEngine.h:634-650 | over every lawful run an order's fill notices since it was last entered add up, at each notice with what that leaves, to its quantity, and for every resting order to what it has been filled by |
| Wal.WALSystem.WriteEntry | MatchingEngine/wal/WAL.cpp:26-47 | appends the reusable record; what replay reads of the log grows by exactly it |
| Wal.WALSystem.LogInput | MatchingEngine/wal/WAL.cpp:49-64 | the log gains the order's ADD, whatever the reused record held |
| Wal.WALSystem.LogModify | MatchingEngine/wal/WAL.cpp:66-77 | the log gains the MODIFY |
| Wal.WALSystem.LogCancel | MatchingEngine/wal/WAL.cpp:79-90 | the log gains the CANCEL |
| Wal.WALSystem.LogTrade | MatchingEngine/wal/WAL.cpp:92-109 | the trade file gains a line, the log gains nothing |
| MatchingEngines.MatchingEngine.constructor | MatchingEngine/include/MatchingEngine.h:74-107 | a starting engine's book is the quiet run of its log, its log is unchanged, it has emitted nothing, and every level's gap is what the log's cuts say |
| MatchingEngines.MatchingEngine.Recover | MatchingEngine/wal/WAL.cpp:111-170 | the replay loop computes that run record by record, writing and emitting nothing |
| MatchingEngines.MatchingEngine.Match | MatchingEngine/include/MatchingEngine.h:580-652 | the pointer-based loop yields exactly the sweep's book, incoming order, log, trades and events, in order; the own side is untouched and surviving levels keep their totals right; it terminates |
| MatchingEngines.MatchingEngine.CancelOnContact | MatchingEngine/include/MatchingEngine.h:604-632 | the self-trade branch is the sweep's turn of that kind |
| MatchingEngines.MatchingEngine.TradeWith | MatchingEngine/include/MatchingEngine.h:634-651 | the trading branch is the sweep's turn of that kind |
| MatchingEngines.MatchingEngine.EmitPostTradeEvents | MatchingEngine/include/MatchingEngine.h:432-498 | both database fills, both order fills and the trade print, in that order, with the book's quote after the trade |
| MatchingEngines.MatchingEngine.OnNewOrder | MatchingEngine/include/MatchingEngine.h:119-211 | the whole engine state after a new order is the specification's; it is refused exactly when the book is full; no level's total goes wrong |
| MatchingEngines.MatchingEngine.OnCancelOrder | MatchingEngine/include/MatchingEngine.h:218-261 | the whole engine state after a cancel is the specification's, with success exactly when the order rests unfilled |
| MatchingEngines.MatchingEngine.OnModifyOrder | MatchingEngine/include/MatchingEngine.h:263-342 | the whole engine state after a modify is the specification's, with success exactly when it is told; every level's gap moves as the accounting of cuts says: a cut in place adds its reduction, a level that vanished forgets, nothing else changes |
| MatchingEngines.MatchingEngine.ReduceResting | MatchingEngine/include/MatchingEngine.h:285-308 | the in-place branch: book and events of the specification, and the level's total left behind by the reduction |
| MatchingEngines.MatchingEngine.Replace | MatchingEngine/include/MatchingEngine.h:309-334 | the cancel-and-replace branch: state and success of the specification; every level whose price held out in between keeps its gap, every other starts anew |
| MatchingEngines.MatchingEngine.Serve | ems/core/Dispatcher.h:50-68 | one request of any kind does to the engine what the run's step does, and moves every level's gap as the accounting says |
| MatchingEngines.MatchingEngine.ServeAll | ems/core/Dispatcher.h:32-76 | after a loop over any run the state is the run's, and every level's kept total is the sum over its orders plus the cuts of the run at its price |
| MatchingEngines.ServeLawful | MatchingEngine/include/MatchingEngine.h:285-293 | over a lawful run from a new engine, every level's kept total is the sum over its orders plus the same-price reductions made there since it was created, and just the sum if there were none |
| LevelTotals.UncutLevel | MatchingEngine/include/MatchingEngine.h:285-293 | runs without reductions in place leave nothing to be ahead by, at any price |
| MatchingEngines.RestartKeepsBook | MatchingEngine/include/MatchingEngine.h:83-107 | an engine that starts from a log that rebuilds a book starts with that book, whatever the clock |
| Runs.QuietNext | MatchingEngine/include/MatchingEngine.h:83-104 | replay depends on the book alone and changes the book alone |
| BookInvariants.NewKeepsInv | MatchingEngine/include/MatchingEngine.h:591-602 | a new order leaves the book sorted, sound, with unique ids and never crossed |
| BookInvariants.StillbornRests | MatchingEngine/include/MatchingEngine.h:360-374 | a limit order without quantity comes to rest with nothing left |
| BookInvariants.CutToNothingStays | MatchingEngine/include/MatchingEngine.h:291-293 | an untouched order reduced to quantity zero stays on the book |
| BookInvariants.StallOutput | MatchingEngine/include/MatchingEngine.h:634-651 | n such turns write n trade lines and 5n events, for every n |
| BookInvariants.StepInv | MatchingEngine/include/MatchingEngine.h:119-342 | one request keeps the book invariant if and only if it leaves no order without a quantity, told from the request and the book before it |
| BookInvariants.RunInv | MatchingEngine/include/MatchingEngine.h:119-342 | every run of requests with positive quantities and fresh ids is accepted throughout and keeps the invariant, so the book is never crossed |
| Witnesses.ZeroModifyBreaks | MatchingEngine/include/MatchingEngine.h:285-293 | a lawful offer cut to quantity 0 stays at the front, and a buyer that meets it is never done |
| Recoveries.CancelDrops | MatchingEngine/include/MatchingEngine.h:218-261 | a cancel removes the id from wherever it rests and keeps the invariant |
| Recoveries.CancelsCommute | MatchingEngine/include/MatchingEngine.h:604-632 | had a match's own cancellations come first, the match would have left the same orders |
| Recoveries.NewReplays | MatchingEngine/include/MatchingEngine.h:165-203 | the ADD logged behind its match's cancellations replays to the same book |
| Recoveries.ReplaceReplays | MatchingEngine/include/MatchingEngine.h:309-334 | replaying a cancel-and-replace yields the live book without the replacement |
| Recoveries.ReplacementRests | MatchingEngine/include/MatchingEngine.h:309-334 | a replacement rests if and only if it asks for more than others offer within its reach |
| Recoveries.StepRebuilds | MatchingEngine/include/MatchingEngine.h:83-104 | after one more live request the log rebuilds a known book, which is the live one if and only if no replacement is left resting |
| Recoveries.RecoveryExact | MatchingEngine/include/MatchingEngine.h:83-104 | a run can be recovered after each of its requests if and only if none of its modifies leaves a replacement resting |
| Witnesses.RepricedIsLost | MatchingEngine/include/MatchingEngine.h:309-334 | a lawful run of two requests whose log does not rebuild its book |
| EventViews.SweepTells | MatchingEngine/include/MatchingEngine.h:432-475 | the database events of a match tell, of every resting order, whether and how it still stands |
| EventViews.NewTells | MatchingEngine/include/MatchingEngine.h:410-475 | and of the new order itself |
| EventViews.ReplacedTells | MatchingEngine/include/MatchingEngine.h:316-334 | a cancel-and-replace is told rightly by its cancellation, fills and modification |
| EventViews.StepAgree | MatchingEngine/include/MatchingEngine.h:410-578 | one request keeps the last database events and the resting orders in agreement if and only if it is not a reduction to exactly nothing |
| EventViews.RunAgree | MatchingEngine/include/MatchingEngine.h:410-578 | so does a whole run, after each of its requests |
| Witnesses.LandingIsUntold | MatchingEngine/include/MatchingEngine.h:298-302 | a lawful run of three requests after which the database has an order open that is gone |
| EventViews.ActsQuote | MatchingEngine/include/MatchingEngine.h:486-497 | the last act of a match publishes the quote the match leaves |
| EventViews.RunQuote | MatchingEngine/include/MatchingEngine.h:398-408 | after every request of every run the last quote published is the book's best bid and ask, zero where a side is empty |
| Balances.FlatInRange | ems/pipeline/BalanceCache.h:35-47 | for symbols below the count the flat index lies inside the groups |
| Balances.FlatInjective | ems/pipeline/BalanceCache.h:35-47 | distinct user slots or symbols have distinct places |
| Balances.BalanceCache.TryBlockFunds | ems/pipeline/BalanceCache.h:70-89 | reserves the amount in that user's slot alone, or leaves it alone when it cannot |
| Balances.BalanceCache.TryBlockHoldings | ems/pipeline/BalanceCache.h:91-110 | the same for one symbol's shares, every other account unchanged |
| Balances.BalanceCache.SettleTrade | ems/pipeline/BalanceCache.h:112-130 | funds and shares change hands, account by account, even when buyer and seller share a slot |
| Balances.BalanceCache.UnblockFunds | ems/pipeline/BalanceCache.h:132-163 | releases the amount, never more than is blocked |
| Balances.BalanceCache.UnblockHoldings | ems/pipeline/BalanceCache.h:165-172 | releases the shares, whatever is blocked |
| DbWriters.DBWriter.Flush | db/DBWriter.cpp:7-68 | every account of every slot and symbol becomes the fold of the batch, in order, and the batch is empty |
| Balances.SlotShared | ems/pipeline/BalanceCache.h:35-39 | two users share a slot if and only if their ids are a multiple of the number of slots apart |
| Wealth.RunWealth | db/DBWriter.cpp:13-66 | over every run of the exchange what a slot owns in funds and shares, available and blocked together, has changed by exactly what its orders sold and bought in the trade file's trades |
| Reservations.FlushSettles | db/DBWriter.cpp:13-66 | flushing the events of one symbol is settling what the engine emitted, and leaves other symbols' shares alone |
| Reservations.TurnSettles | db/DBWriter.cpp:15-37 | a turn's events take from the blocked accounts what its two orders no longer call for, less the buyer's saving |
| Reservations.NewCovers | db/DBWriter.cpp:13-66 | from reservation to last event, a new order leaves blocked what rests and a known surplus |
| Reservations.CancelCovers | db/DBWriter.cpp:22-37 | a cancel releases exactly what the order still called for |
| Reservations.ReduceCovers | db/DBWriter.cpp:38-52 | a reduction releases exactly what it cut, or nothing when it cut all |
| Reservations.ReplaceCovers | db/DBWriter.cpp:53-64 | a cancel-and-replace leaves blocked what rests and a known surplus, depending on whether the writer can reserve for the rest |
| Reservations.ReplacementShort | db/DBWriter.cpp:53-64 | that surplus is minus what the resting orders ask of the replacement, and minus its rest if it could not be reserved |
| Reservations.StepCovers | ems/pipeline/ValidationPipeline.h:162-177 | from a slot that is not short, one request of any kind leaves it with its resting orders' reservations plus a surplus told exactly |
| Reservations.MarketBuyOverdraws | ems/pipeline/ValidationPipeline.h:167-171 | a market buy leaves what it reserved, which is nothing, less all that the resting orders ask of it |
| Reservations.BeforeReblockingIs | db/DBWriter.cpp:53-64 | what is available when a replacement's rest is to be reserved: what was, the old order's reservation, and what the slot's other users were given |
| Costs.GivenIsAsked | MatchingEngine/include/MatchingEngine.h:634-651 | what a match gives for its fills, to everyone or to one slot, is a closed form over the orders before it |
| Costs.FreeExactly | MatchingEngine/include/MatchingEngine.h:591-602 | among priced orders a match costs nothing if and only if no stranger offers anything within its reach |
| Coverage.StepExact | ems/pipeline/ValidationPipeline.h:162-177 | a covered slot stays covered by a request if and only if it has enough to spare, told from the book and its account before; requests of other slots never matter |
| Coverage.MarketBuyExact | ems/pipeline/ValidationPipeline.h:167-171 | with nothing to spare, a market buy leaves its slot covered if and only if it meets no offer |
| Coverage.ReplacementExact | db/DBWriter.cpp:53-64 | and a replacement if and only if it meets no offer within its reach and can be reserved in full with the old reservation given back |
| Coverage.RunCovers | ems/pipeline/ValidationPipeline.h:162-177 | over every run, for as long as a slot has not fallen short, its blocked funds and shares are its resting orders' reservations plus the run's surplus |
| Coverage.RunExact | db/DBWriter.cpp:13-66 | over every run a slot is covered after each request if and only if each of its own market buys and replacements found enough to spare |
| Coverage.RunReserves | db/DBWriter.cpp:13-66 | so a slot that makes neither is covered throughout, whatever the other slots do |
| Witnesses.MarketBuyIsShort | ems/pipeline/ValidationPipeline.h:167-171 | a run of two requests after which the buyer's slot is short, whatever funds it has |
| Witnesses.RaisedIsShort | db/DBWriter.cpp:53-64 | a run of two requests after which a raised offer rests unreserved |
| Effects.EmittedDelta | db/DBWriter.cpp:13-66 | what the events of any request, the slot's own replacements included, take from its blocked accounts is what its book no longer calls for and its admission reserved, less a surplus, whatever the accounts hold; and an amount pays for them one by one if and only if it pays for all but the reservation a replacement asks for at its end |
| Pipelines.FlushOver | db/DBWriter.cpp:13-66 | a settled event finds enough blocked and takes exactly its amount, or nothing if the reservation it asks for is refused, so the clamp never acts |
| Pipelines.StageKeeps | ems/core/Dispatcher.h:32-76 | however admission, matching in any order and settlement overlap, what is blocked is what rests, what awaits its match, what events under way will take, and a surplus that only a match or a refused reservation changes; and it goes on paying for every event under way if and only if that could be told before the stage |
| Pipelines.PipelineExact | ems/core/IngressWorker.h:45-94 | over every overlapping run of any requests what is blocked pays for what is under way at every moment if and only if each stage could be told to; then, with nothing under way, the slot is covered if and only if the run's surpluses are not negative |
| Pipelines.PipelineCovers | ems/core/IngressWorker.h:45-94 | over every overlapping run, matched in any order, a slot that makes no market buys and no replacements has blocked at every moment all that rests, awaits its match or is under way, and covers what rests whenever nothing is under way |
| Validations.ValidationPipeline.Process | ems/pipeline/ValidationPipeline.h:41-92 | the first failing check is the verdict; from the market check on a rate token is spent in the user's slot and nowhere else; funds are reserved for accepted new orders and nothing else |
| Validations.ValidationPipeline.AdmissionExact | ems/pipeline/ValidationPipeline.h:94-177 | a new order passes if and only if its symbol is known and open, its user's rate allows it, its side, quantity and price are in range, a limit order is worth no more than 10^12 and on the tick, its quantity is in whole lots and its reservation is there; otherwise the reason is the first of these to fail, in the order of the checks |
| Validations.Admitted | ems/pipeline/ValidationPipeline.h:162-177 | blocking the price times the quantity of a buy, or the quantity of a sell, is what admission reserves for the engine's command; `Process` blocks so, or leaves everything alone |
| Validations.AcceptedIsOrderly | ems/pipeline/ValidationPipeline.h:94-160 | an accepted new order is one the book can take; a cancel or modify passes if and only if its symbol is open, its rate allows it and its quantity, 0 included, is in whole lots, and nothing looks at a modify's price |
| Validations.ZeroModifyPasses | ems/pipeline/ValidationPipeline.h:157-166 | a modify to quantity 0, which the book cannot take, passes wherever trading in its symbol is possible at all |
| RateLimiters.RateLimiter.MaybeAdvanceEpoch | ems/pipeline/RateLimiter.h:42-58 | the epoch moves on every 1024th call at most, and only after a second |
| RateLimiters.RateLimiter.CheckAndIncrement | ems/pipeline/RateLimiter.h:77-100 | accepts exactly below the limit, counting in the caller's slot alone, anew in a new epoch |
| RateLimiters.AcceptedPerEpoch | ems/pipeline/RateLimiter.h:77-100 | each epoch begun lets a slot through no more than the limit, 32-bit epoch truncation included |
| RateLimiters.EpochMoves | ems/pipeline/RateLimiter.h:42-58 | among any 1024 calls in a row that all come a second after the epoch began, the one that looks at the clock moves it on |
| RateLimiters.FirstOfEpoch | ems/pipeline/RateLimiter.h:77-100 | a slot's first call in an epoch is accepted if and only if the limit is not zero, unless its last epoch is a multiple of 2^32 back |
| RateLimiters.RateFloor | ems/pipeline/RateLimiter.h:42-101 | so of any calls in a row, 1024 or more of them late, a slot gets through at least as many as it makes from the move on, up to the limit, whatever it had used before, unless 2^32 epochs go by |
| RateLimiters.RateBound | ems/pipeline/RateLimiter.h:42-101 | over any stretch of T ms of a monotone clock, from any reachable state, a slot gets through at most (T/1000 + 2) times the limit |
| Ledgers.UnitsApart | ems/pipeline/BalanceCache.h:35-47 | every symbol's shares and the funds are kept apart |
| Ledgers.ActionBalances | ems/pipeline/BalanceCache.h:70-172 | every atomic action moves as much as it takes in flight |
| Ledgers.StepConserves | ems/pipeline/BalanceCache.h:70-188 | in every interleaving, available plus blocked plus in flight changes by deposits alone |
| Balances.ReleaseSound | ems/pipeline/BalanceCache.h:132-163 | a release overdraws a sound account exactly when it owes more than is available, told before the call |
| Ledgers.StepAvail | ems/pipeline/BalanceCache.h:70-188 | in every race, a step leaves every available balance non-negative if and only if it is not a release handing back a debt of more than is then available |
| Ledgers.StepNonNegative | ems/pipeline/BalanceCache.h:132-163 | such a debt is picked up exactly where a release finds blocked funds negative: with no debt under way, available balances and releases stay non-negative otherwise |
| Ledgers.RunAvail | ems/pipeline/BalanceCache.h:70-188 | over every interleaving the available balances stay non-negative exactly as long as no release hands back more debt than is available |
| Ledgers.DebtOverdraws | ems/pipeline/BalanceCache.h:112-163 | from any start with two threads idle, after settling a purchase worth more than its buyer has blocked and then releasing some of the buyer's funds, an account is overdrawn if and only if the purchase was worth more than available and blocked together |
| Ledgers.RunConserves | ems/pipeline/BalanceCache.h:70-188 | over every run, supply is what was there plus deposits, and available balances stay non-negative while blocked funds do |
| Ledgers.SoloBlock | ems/pipeline/BalanceCache.h:70-110 | the load, swap and add steps, undisturbed, do what the sequential reservation does |
| Ledgers.SoloUnblock | ems/pipeline/BalanceCache.h:132-163 | the same for the clamped release |
| Ledgers.SoloSettle | ems/pipeline/BalanceCache.h:112-130 | the same for the four steps of a settlement |
| RejectionBitsets.BitEdits | ems/queues/RejectionBitset.h:16-29 | setting or clearing a bit of a word changes no other bit |
| RejectionBitsets.SameAddress | ems/queues/RejectionBitset.h:14-16 | two sequences share a bit if and only if they are a multiple of 4096 apart |
| RejectionBitsets.BeyondWindow | ems/queues/RejectionBitset.h:12-31 | a mark any number of windows ahead is taken for this sequence |
| RejectionBitsets.RejectionBitset.MarkRejected | ems/queues/RejectionBitset.h:12-18 | within the window the bitset gains exactly that sequence |
| RejectionBitsets.RejectionBitset.TryConsumeRejected | ems/queues/RejectionBitset.h:20-31 | true if and only if the expected sequence was marked and not consumed, and no other is affected |
| Sequencers.RejectInv | ems/core/IngressWorker.h:63-67 | marking a rejected request keeps the protocol invariant |
| Sequencers.ClaimInv | ems/core/IngressWorker.h:68-84 | claiming a ring position for an accepted request keeps it |
| Sequencers.ConsumeInv | ems/core/Dispatcher.h:34-38 | the dispatcher skips a sequence only if it was rejected |
| Sequencers.ExecuteInv | ems/core/Dispatcher.h:40-72 | and executes one only if it was accepted |
| Sequencers.StepInv | ems/core/Dispatcher.h:32-76 | every step of every thread keeps the invariant while rejections stay inside the window |
| Sequencers.RunInOrder | ems/core/Dispatcher.h:32-76 | in every interleaving, what has been executed is exactly the accepted requests below the next sequence, in increasing order, each once and unchanged |
| Sequencers.SlotsApart | ems/queues/MPSCRingBuffer.h:68-73 | positions in use never share a physical slot |
| Sequencers.ResolvedMoves | ems/core/Dispatcher.h:40-48 | once the next sequence is decided and published the dispatcher can move, if and only if no later one stands before it on the ring |
| Sequencers.StuckForever | ems/core/Dispatcher.h:43-47 | and if one does, nothing is ever executed again |
| Sequencers.InvertedForever | ems/core/Dispatcher.h:43-47 | of two sequences on the ring the later of which stands first, neither is ever passed, whatever follows |
| Sequencers.ClimbsStep | ems/core/IngressWorker.h:68-84 | with any number of workers, a step keeps what is on the ring in sequence order if and only if it was so and the step is not a claim below what is there |
| Sequencers.ClimbRun | ems/core/Dispatcher.h:32-76 | over every run of any number of workers, as long as each claim is above all that is on the ring a decided next sequence lets the dispatcher move, and otherwise some accepted request is barred in every continuation |
| Sequencers.LostForever | trade_server/network/WebSocketServer.cpp:200-213 | a sequence numbered but dropped is never decided; the dispatcher never passes it and, having come to it, executes nothing again |
| Sequencers.LossStalls | trade_server/network/WebSocketServer.cpp:200-213 | so in every run in which a sequence is dropped the dispatcher has not passed it at the end |
| Sequencers.FifoStep | ems/core/IngressWorker.h:45-94 | one worker fed upwards keeps the ring in sequence order |
| Sequencers.FifoRun | ems/core/Dispatcher.h:32-76 | over every run of one worker fed upwards, a decided next sequence lets the dispatcher move |
| Sequencers.FlowMoves | ems/queues/MPSCRingBuffer.h:68-73 | with one worker and no gaps some thread can take a step until every sequence is passed; a full ring never blocks |
| Sequencers.FlowRun | ems/core/IngressWorker.h:45-94 | so over every run that numbers in turn and loses nothing |
| Sequencers.Drains | ems/core/IngressWorker.h:45-94 | and once nothing more comes in, no run is longer than the work left, so the steps that stay possible decide and pass every request |
| Sequencers.OvertakingStalls | ems/core/IngressWorker.h:68-84 | two workers with one request each can reach the stuck state |
| Overruns.OverrunConsumes | ems/queues/RejectionBitset.h:12-31 | rejecting any number of windows ahead of the next sequence lets the dispatcher pass that sequence, rejected or not, and execute nothing before it does |
| Overruns.OverrunLoses | ems/core/Dispatcher.h:34-38 | if it was accepted, its request stays on the ring unexecuted in every continuation |
| Overruns.FloodStalls | ems/core/Dispatcher.h:32-76 | two workers numbered in turn, the first with a full queue, can come to this, and then nothing is ever executed |
| Dispatches.InterleavedRun | ems/core/Dispatcher.h:40-72 | in every interleaving of any number of workers that stays in the window, if the accepted requests are orderly and no id is given twice, the engine's state is that of the lawful run of the accepted requests passed so far, in sequence order, and its book keeps the invariant |
| ConnTables.PopKeeps | trade_server/network/ConnTable.h:51-63 | taking the top of the chain leaves a proper free list of one less |
| ConnTables.PushKeeps | trade_server/network/ConnTable.h:82-90 | giving back an active id leaves a proper free list of one more |
| ConnTables.DoubleReleaseBreaks | trade_server/network/ConnTable.h:82-90 | relinking a free id leaves no finite chain at all |
| ConnTables.ReleaseExact | trade_server/network/ConnTable.h:75-91 | a release leaves a proper free list if and only if the id was active |
| ConnTables.AppliedFound | trade_server/network/ConnTable.h:75-91 | an assignment keeps every active user found; a release does if and only if no other active connection is of its user slot |
| ConnTables.FoundRun | trade_server/network/ConnTable.h:49-99 | over every run all active users stay found if and only if no release is of a connection whose slot has another |
| ConnTables.ConnTable.constructor | trade_server/network/ConnTable.h:31-47 | ids 1 to 65535 start free, in one chain, and every active user is found |
| ConnTables.ConnTable.Assign | trade_server/network/ConnTable.h:49-73 | returns an id that was inactive, or 0 if and only if all are active; free and active ids stay a partition |
| ConnTables.ConnTable.Release | trade_server/network/ConnTable.h:75-91 | the id becomes inactive and free again, its user slot is cleared, so all active users stay found exactly when no other connection was of that slot; what is no id is ignored |
| ConnTables.ConnTable.FindByUser | trade_server/network/ConnTable.h:96-99 | the id found is active and belongs to the user's slot |

## Left out

- Pointers are indices of pool slots, and -1 is the null pointer; the pools already hold all orders and levels by value, so nothing else is aliased.
- Log sequence numbers in database events, symbol ids and padding fields: no decision depends on them.
- Log file failures (disk full, failed flush, a partial last record): the log is an append-only sequence of whole records.
- The trade file is a sequence of lines; a new process begins a new sequence where the code appends to the old file.
- The wall clock is a parameter, read once per request or replayed record; the recovery theorem asks that a new order's stamp is not zero.
- Output queues are unbounded and their four streams are one sequence in order of emission; dropped pushes are not modelled.
- Order ids are natural numbers and fresh, as the id index does not overwrite; limit prices lie in the 64 bits the index keys on, so negative prices are not modelled.
- Quantities, prices and balances are unbounded integers; 64-bit overflow of notionals and 32-bit overflow of share counts are not modelled.
- Exceptions for null pointers and missing levels: these branches cannot be reached from a consistent book, which is proved by there being no such case to handle.
- libart, the ring's claim strategy and the hash maps are modelled by contract: ordered map, claim and publish by position, finite map.
- Coverage.RunCovers: stops at the first request that leaves a slot short, since from then on a release may be clamped; so do the other theorems on coverage.
- Pipelines.StageKeeps: the stages are whole operations on the cache; their atomic actions are interleaved in `Ledger`.
- Ledgers.RunConserves: direct overwrites of balances at start-up (`setBalance`, `setHoldings`) are not steps of the ledger.
- Balances.BalanceCache.TryBlockFunds: is the sequential operation; its compare-and-swap loop is modelled in `Ledger`.
- RateLimiters.RateBound: the limiter's own compare-and-swap races are not modelled; calls are sequential.
- Sequencers.FlowRun: is about one worker, the case in which nothing overtakes, and about runs whose rejections stay inside the bitset's window; `ClimbRun` is about any number, `Overruns` about the others.
- Overruns.OverrunLoses: is about a rejection some whole number of windows ahead; what a rejection elsewhere beyond the window does to the sequence that shares its bit follows once the dispatcher comes to that sequence.
- ConnTables.ConnTable.Assign: concurrent compare-and-swap races on the free list are not modelled.
- Sequencers.RunInOrder: validation is a free choice of each worker, and the engine's work inside one dispatched request is one step.
- The writer's polling, batch limits and SQL, the balance bootstrap, symbol loading and market data, sessions, sockets and controllers: plumbing around other systems.
- Candle building, symbol routing and id generation: folds and lookups that would add only easy members.
