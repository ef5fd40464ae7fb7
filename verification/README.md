# NebulaX: a verified model

NebulaX is a limit-order-book exchange. Up to 65536 books, one per stock locate, share one pool of order slots and one
index from order id to slot. Commands arrive as ITCH messages over TCP, are matched by price and then time, logged to a
write-ahead log, and answered through a byte ring that a second thread drains to the sockets.

The project has four layers.

**The exchange as a value.** `Matching` defines a half of a book as a sequence sorted best price first, oldest first
within a price, and trading as one greedy walk over it. `Exchange` defines every command as a function from a state
(books, free slots, indexed ids, counters) to a state, responses and log entries. `WalkFacts` says what the walk does
without the walk. `Answers` says what every command answers and does to the books in terms of order fields alone, over the
volumes of `Volumes`. `Runs`, `Ledger`, `Indexing`, `Outcomes`, `Priority`, `Replay`, `Repeats` and `Survival` prove
properties of all runs of commands.
`IndexValue` says what decides the index's answers and `IndexRuns` follows it through every command.

**The data structures.** `OrderPool`, `OrderMap`, `OrderBook` and `MatchingEngine` are classes over arrays and maps, with
the code's own fields: doubly linked lists threaded through slots by index, cached level counts and totals, a free stack
threaded through the same slots, hashed chains over a node array with an overflow map. Each operation is proved to keep
the whole representation invariant and to compute exactly the function of the first layer. `SideRep`, `SideUpdates`,
`BookMem` and `Chains` hold the representation invariant and what each update does to it. `SharedRecovery` and
`Snapshots` specify the two other ways of rebuilding a book.

**The concurrent parts.** `PoolThreads`, `Spsc`, `SendLoop` and `Mpsc` are state machines whose steps are the individual
loads, stores, byte copies and compare-exchanges, interleaved in any order by any number of threads where the code allows
it. `RingLink` joins two of them: both threads of the response path over the real ring. Fields and step arguments that
the code does not have (version counts, unwrapped counters, histories) only record the past; no step looks at them.

**The protocol edge.** `ItchFraming` cuts a byte stream into messages, `ItchParserModel` classifies them, and
`TcpServerModel` drives the engine with them. `Messages` goes from the bytes of a message to the books.

## Reading the model

- The two match loops and the two sides of each scan are mirror images; one body with a `side` parameter stands for both.
- `std::map` is a Dafny map together with `OrderBookModel.NextKey`, its in-order iteration.
- 32-bit and 64-bit unsigned arithmetic wraps explicitly (`Wrap32`, `Wrap64`). Level totals hold modulo 2^32.
- `ins` in `Exchange` is the result of `OrderMap::insert`, which `addOrder` ignores. Statements over `ins` hold for every
  answer. What the index does answer depends on the ids bound, the chain lengths and bucket states, the number of free
  nodes and the tag of their stack (`IndexValue.Index`), and not on which node holds which id. `IndexRuns` computes the
  answer and the next index value of every command, so a `Whole` (exchange and index) determines its run, and the classes
  are proved to follow it. An id is taken while a node is free (`RoomAnswers`), and also with a node per slot and no
  treeified bucket.
- Preconditions on callers are those the code relies on: an added id is not live, and a cancel or replace names the
  order's own locate (`FreshRef`, `OwnLocate`, `ReplaceFresh`, `Permitted`). Along a log or a stream of messages this is
  asked along the one run that the exchange and its index determine (`LogPermitted`, `AllPermitted`).
- Interleavings are sequentially consistent. The acquire and release orderings the code uses on the shared counters are
  taken to give that.

## Where the code and its comments or expected properties part

- Fill-or-kill is not always all-or-nothing. The check counts the user's own orders, matching skips them. `FokExact` gives
  the exact condition under which it fails and what it then trades, `FokOwnOrder` a reachable instance.
- A replace with quantity zero rests without matching. A run keeps every book uncrossed between users throughout if and
  only if it has no replace for zero onto a price another user's order meets (`RunsUncrossed`, one command at a time
  `StepUncrossed`); `ZeroReplaceCrosses` is a reachable instance.
- Which logged commands a replay repeats is exact for every command (`StepReplaysExact`): every full cancel and DAY add; an
  IOC or FOK exactly when nothing of it was left, or no slot could be had for what was, since replay takes it for a DAY
  order; a replace exactly when it was refused and nothing of its new ref and user was there to cancel, since its log
  entry does not name the old order.
- Replaying a logged partial cancel repeats it exactly when the order is absent, the owner issued it, or it was for zero
  (`PartialCancelReplay`): replay does not check the owner. `ForeignPartialCancel` is a reachable instance of the rest.
- Replay rebuilds the books over an index like the one the history started with (`WalRebuilds`). Over another it need
  not: a logged add answered differently has the same effect if and only if it rested nothing (`AddReplaysExact`), and
  `RefusedInsertDiverges` is a run on a new two-node index that diverges when replayed on a new four-node one.
- `OrderMap::insert` is commented as falling back to the overflow map when nodes run out. The test compares the whole
  tagged head with the null index, so it can only hold while the tag is zero; otherwise the insert is refused. The
  contract of `OrderMap.Insert` states the exact condition.
- The recovered id counter ends above every recovered id exactly when none of them is the largest 64-bit value
  (`IdsBelow`), because it is advanced with wrap-around.
- A replace to ref 0 can rest an order without an id, which recovery from the slot array drops. Every resting order has an
  id throughout a run if and only if no such replace is made (`RunsNamed`); `RefZeroRests` is a reachable instance.
- The pool's tag protects against reuse only below 2^32 head updates between a load and its exchange. The bound is sharp
  for every even tag range (`WrappedTagHandsOutTwice`).
- The multi-producer ring loses data if a claim runs a full capacity ahead of a claim that has not marked its slot, at
  every capacity (`EarlyClaimLosesData`).

## Model

| member | source | states |
|---|---|---|
| PoolThreads.RunsSafe | include/order_pool.h:40-73 | every interleaving of any number of threads, slots and handed-out pointers whose owners may overwrite the link field: if fewer than `mod` head updates fall between a load and its exchange, the links from the head visit a duplicate-free list ending in null, no slot has two holders or is both held and free, free plus owned is the capacity, and size_ is the handed-out count plus the frees in flight (so it never underflows) |
| PoolThreads.AtRest | include/order_pool.h:40-73 | with no call under way size_ is the number of slots handed out, which is capacity minus the free list |
| PoolThreads.StepKeeps | include/order_pool.h:40-73 | each single load, store or compare-exchange keeps the invariant, including that what a stalled thread read is still current if the head has not moved |
| PoolThreads.KeepCasAlloc | include/order_pool.h:43-52 | a successful exchange in allocate takes the true head and installs its true successor, for every interleaving before it |
| PoolThreads.KeepCasFree | include/order_pool.h:60-69 | a successful exchange in deallocate pushes a slot nobody else holds in front of the true head |
| PoolThreads.FailureMeansProgress | include/order_pool.h:46-53 | an exchange that finds another head means another thread's exchange succeeded since the load |
| PoolThreads.NoThreadBlocked | include/order_pool.h:40-73 | whatever a thread is about to do next it can do: no index it uses is ever out of range |
| PoolThreads.AllocPops | include/order_pool.h:40-56 | uninterrupted, allocate hands out the top of the stack and bumps tag and size |
| PoolThreads.FreePushes | include/order_pool.h:58-73 | uninterrupted, deallocate puts the slot back on top |
| PoolThreads.WrappedTagHandsOutTwice | include/order_pool.h:43-52 | for every even tag range of at least 4, a run with exactly that many head updates between a load and its exchange gives one slot to two owners |
| OrderPoolModel.OrderPool.RebuildFreelist | include/order_pool.h:93-99 | the free stack is all slots in index order, and no slot's order data changes |
| OrderPoolModel.OrderPool.Allocate | include/order_pool.h:40-56 | pops the top of the exact free stack, or null exactly when it is empty |
| OrderPoolModel.OrderPool.Deallocate | include/order_pool.h:58-73 | pushes the slot on the free stack and touches no other slot |
| WalkFacts.WalkIsGreedy | src/matching_engine.cpp:548-665 | the trades are exactly the greedy takes, smaller of need and remainder each time, from the other users' orders within the limit, in priority order |
| WalkFacts.FillsAreFair | src/matching_engine.cpp:548-665 | every trade is with a resting order of another user, within the limit, for at most its remainder |
| WalkFacts.WalkStops | src/matching_engine.cpp:548-665 | if the taker is not filled, nothing it may take is left in reach |
| WalkFacts.WalkFillsAll | src/matching_engine.cpp:548-665 | what remains of the taker is its quantity less the reachable volume of others, or zero |
| WalkFacts.WalkBalances | src/matching_engine.cpp:548-665 | remainders and fills of makers and taker move by exactly the traded amount, with no 32-bit wrap |
| WalkFacts.RestIsRemnant | src/matching_engine.cpp:548-665 | every order left is the remnant of one that was there, reduced at most |
| WalkFacts.RestKeepsOrder | src/matching_engine.cpp:548-665 | time priority survives a match: what is left embeds into what was there at strictly increasing positions, each order a remnant of the one at its position |
| WalkFacts.WalkLeaves | src/matching_engine.cpp:548-665 | the exact remainder: own and unreachable orders untouched, each eligible order lowered by its greedy take, used-up ones dropped |
| WalkFacts.WalkKeepsHalf | src/matching_engine.cpp:548-665 | what the walk leaves is still a sorted half |
| WalkFacts.WalkStatus | src/matching_engine.cpp:548-665 | the taker's status tells filled, partly filled and untouched apart; an unfilled taker removed one resting order per trade |
| Matching.WalkStep | src/matching_engine.cpp:548-606 | one turn of the loop, which restarts at the best order each time, is one step of the walk |
| MatchLoop.Match | src/matching_engine.cpp:548-665 | the loop over linked levels computes exactly the walk: trades emitted, orders left, taker, ids removed from the index and the index value after, slots freed; the other side and every other book stay as they were; if every resting order could be found before, each can after |
| MatchLoop.HitMaker | src/matching_engine.cpp:562-600 | one trade reduces the maker in place, or removes it and frees its slot when used up |
| MatchLoop.MidwayNext | src/matching_engine.cpp:548-606 | one turn of the loop keeps that the walk still to come completes the walk from the start, and the index value that of the fills so far |
| OrderBookModel.NextKey | src/order_book.cpp:105-143 | in-order iteration over the price levels of a side |
| OrderBookModel.OrderBook.AddOrder | src/order_book.cpp:8-38 | refuses exactly on an invalid side or an empty pool, leaving everything unchanged; otherwise takes the top free slot, puts the order behind all orders of equal or better price, changes no other slot's order, and keeps the full representation invariant; the index answers, and changes, as its value says, and accepts whenever it has a free node, or a node per slot and no treeified bucket; when it accepts, every resting order of every book can still be found |
| OrderBookModel.OrderBook.RemoveOrder | src/order_book.cpp:59-93 | removes exactly that order from its half, its id from the index, and frees its slot; the other half and other books are unchanged; every other resting order can still be found |
| OrderBookModel.OrderBook.ReduceOrderQty | src/order_book.cpp:40-48 | the order at that place is reduced and its filled quantity grows, level total included; nothing else changes |
| OrderBookModel.OrderBook.ReduceQtyCancel | src/order_book.cpp:50-57 | the order at that place is reduced without a fill; nothing else changes |
| OrderBookModel.OrderBook.GetBest | src/order_book.cpp:105-143 | the first order, in price-time order, that is not the user's own |
| OrderBookModel.OrderBook.AvailableQty | src/order_book.cpp:145-170 | the reachable volume modulo 2^32, own orders included |
| OrderBookModel.OrderBook.GetTopOfBook | src/order_book.cpp:172-189 | the highest bid price and lowest ask price, each with the volume at exactly that price modulo 2^32, or zeros for an empty side |
| OrderBookModel.TopIsBest | src/order_book.cpp:172-189 | the first order of a sorted half has its best price, and the cached total is the volume at that price |
| OrderBookModel.OrderBook.SaveHalf | src/order_book.cpp:280-300 | appends the half's orders in price-time order and keeps the running maxima |
| OrderBookModel.OrderBook.SaveSnapshot | src/order_book.cpp:271-302 | the stream is the bids then the asks, each in price-time order; the result is the largest id |
| OrderBookModel.OrderBook.IndexHasRoom | src/order_book.cpp:13-36 | a pool slot left implies an index node left, when the index has a node per slot and no treeified bucket |
| SideUpdates.SideInsert | src/order_book.cpp:18-35 | appending to a level keeps links both ways, heads, tails, counts and totals of the whole side |
| SideUpdates.SideRemove | src/order_book.cpp:73-95 | unlinking keeps them, and drops a level exactly when it empties |
| SideUpdates.SideReduce | src/order_book.cpp:40-57 | changing a quantity keeps them |
| SideUpdates.SideFrame | src/order_book.cpp:8-103 | a side does not notice changes to slots it does not hold |
| BookMem.TakeOk | src/order_book.cpp:13-16 | popping a free slot keeps every book's representation |
| BookMem.LinkOk | src/order_book.cpp:18-35 | linking the slot inserts its order at its price-time place in one half and keeps the representation |
| BookMem.UnlinkOk | src/order_book.cpp:59-95 | unlinking removes exactly one order of one half and keeps the representation |
| BookMem.GiveOk | src/order_book.cpp:97-98 | returning the slot keeps the representation |
| BookMem.ReduceOk | src/order_book.cpp:40-57 | rewriting quantities in a slot changes exactly one order and keeps the representation |
| BookMem.OtherKept | src/order_book.cpp:8-103 | an operation on one locate's book leaves the halves of every other book in place |
| BookMem.TouchFrame | src/order_book.cpp:8-103 | writes to the slots of one half or to loose slots leave the other half, the free stack and every other book as they were |
| BookMem.IndexSmaller | src/order_book.cpp:13-36 | the index binds fewer ids than there are slots while some slot is not resting |
| IndexValue.HashInRange | include/order_map.h:224-228 | the hash lands inside the bucket array for every bucket count that is a power of two |
| IndexValue.RoundPow2 | include/order_map.h:217-222 | the smallest power of two at least n |
| OrderMapModel.OrderMap.constructor | include/order_map.h:30-49 | an empty map over fresh arrays, every node free in index order, no treeified bucket; its value is the new index of that capacity |
| OrderMapModel.OrderMap.AllocNode | include/order_map.h:230-244 | pops the top of the node free stack, leaving the rest of it, or null exactly when it is empty |
| OrderMapModel.OrderMap.FreeNode | include/order_map.h:246-259 | pushes the node in front of the old free stack |
| OrderMapModel.OrderMap.Treeify | include/order_map.h:263-278 | moves every binding of the bucket to the overflow map, loses none and strands its nodes |
| OrderMapModel.OrderMap.Insert | include/order_map.h:65-117 | adds exactly that binding, or, exactly when the bucket is a chain, no node is free and the tag is not zero, refuses and changes nothing; the answer and the new index value are the functions `Accepts` and `Bind` of the old value, whichever nodes are used |
| OrderMapModel.OrderMap.InsertNode | include/order_map.h:85-116 | the chain branch adds the binding exactly when a node is free, and otherwise changes nothing |
| OrderMapModel.OrderMap.InsertOverflow | include/order_map.h:69-83 | the overflow branches add the binding, treeifying the bucket first where it is still a chain |
| OrderMapModel.OrderMap.Find | include/order_map.h:119-138 | agrees with the partial map before, across and after treeify |
| OrderMapModel.OrderMap.Erase | include/order_map.h:140-190 | removes exactly that binding, and is a no-op for an unbound id; the new index value is the function `Unbind` of the old one |
| OrderMapModel.OrderMap.EraseChain | include/order_map.h:154-190 | the chain branch removes exactly that binding and gives its node back |
| OrderMapModel.OrderMap.FindAfter | include/order_map.h:173-189 | the search along a chain finds the node with the id and its predecessor, or the id is nowhere in the chain |
| OrderMapModel.TreeifiedOk | include/order_map.h:263-278 | migration keeps the table invariant, which bounds chains below 8 |
| OrderMapModel.PushEntryOk | include/order_map.h:85-112 | pushing a node at a chain head keeps the table invariant and adds one binding |
| OrderMapModel.CutEntryOk | include/order_map.h:154-187 | cutting a node out of a chain keeps the table invariant and removes one binding |
| OrderMapModel.NodeAccounting | include/order_map.h:65-278 | free nodes plus chained nodes plus stranded nodes is the capacity, and the size is the chained nodes plus the overflow entries |
| OrderMapModel.RoomWithoutTrees | include/order_map.h:85-86 | without a treeified bucket a node is free while fewer ids are bound than there are nodes |
| IndexValue.BindTakesOne | include/order_map.h:65-117 | an insert takes at most one node and is accepted while one is free |
| IndexValue.LightBind | include/order_map.h:65-117 | a new index with few ids takes the next one exactly while a node is free (or none was ever taken) |
| OrderMapModel.OrderMap.ValueSized | include/order_map.h:30-49 | the bucket arrays of every valid map have a place for every hash |
| MatchingEngineModel.MatchingEngine.constructor | src/matching_engine.cpp:13-50 | a fresh array of no books, counters at 1; over an all-free pool it is the empty exchange |
| MatchingEngineModel.MatchingEngine.BookFor | src/matching_engine.cpp:52-66 | null exactly for a locate out of range; creating a book changes no book's contents |
| MatchingEngineModel.MatchingEngine.CanFullFill | src/matching_engine.cpp:539-544 | compares the reachable volume modulo 2^32 with the quantity |
| MatchingEngineModel.MatchingEngine.ProcessAdd | src/matching_engine.cpp:70-194 | computes `Exchange.Add` exactly (books, slots, index, counters, responses, log), with the answer `InsertAnswer` and the index value `IndexAfter`, and keeps the whole invariant over all books |
| MatchingEngineModel.MatchingEngine.ProcessCancel | src/matching_engine.cpp:196-236 | computes `Exchange.Cancel` exactly, with the index value `IndexAfter`, and keeps the invariant |
| MatchingEngineModel.MatchingEngine.ProcessCancelShares | src/matching_engine.cpp:238-285 | computes `Exchange.CancelShares` exactly, with the index value `IndexAfter`, and keeps the invariant |
| MatchingEngineModel.MatchingEngine.ProcessReplace | src/matching_engine.cpp:287-364 | computes `Exchange.Replace` exactly (books, slots, index, counters, responses, log), with the answer `InsertAnswer` and the index value `IndexAfter`, and keeps the whole invariant over all books |
| MatchingEngineModel.MatchingEngine.GetBook | src/matching_engine.cpp:513-535 | the top of the book, or zeros for a locate out of range |
| MatchingEngineModel.MatchingEngine.RecoverFromWal | src/matching_engine.cpp:391-451 | computes the replay of the entries over its own state and index exactly, and keeps the invariant |
| MatchingEngineModel.MatchingEngine.RestartFromLog | src/matching_engine.cpp:391-451 | an engine started empty over the log file of any history that began with the same pool size and index value ends with that history's books and index value, a sequence counter above every resting sequence, and an id counter above every logged id exactly when none is the largest value, however long the history and whatever its index refused |
| MatchingEngineModel.ColdStart | src/main.cpp:86-133 | building the pool's free stack, an index of the pool's size and an engine, and replaying the file, gives the state that every history begun the same way ended with |
| MatchingEngineModel.MatchingEngine.RecoverFromShared | src/matching_engine.cpp:453-477 | for every slot array with distinct recoverable ids: the k-th record given a slot ends in slot k, all later slots are free, book 0 is the recoverable records in price-then-slot order, the counters have moved past each, and the index value is that of binding those ids one by one |
| MatchingEngineModel.MatchingEngine.RecoverSlot | src/matching_engine.cpp:460-473 | a record moves to the lowest free slot, at or before the scan, no record still to be read changes, and the index value is that of binding its id |
| MatchingEngineModel.MatchingEngine.LoadSnapshot | src/matching_engine.cpp:479-489 | rests the stream in book 0 while slots last, restarts both counters after its maxima, and the index value is that of binding the rested ids one by one |
| MatchingEngineModel.MatchingEngine.LoadStream | src/order_book.cpp:304-328 | rests each order of the stream in turn and returns the maxima, with the same account of the index |
| SharedRecovery.RebuiltExact | src/matching_engine.cpp:453-477 | recovery keeps the recoverable records of each side, none lost and none invented, as sorted halves |
| SharedRecovery.RebuiltCounts | src/matching_engine.cpp:460-466 | each half of the rebuilt book holds an order exactly as often as the slot array does if it has a nonzero id, that side, and status open or partly filled, and not at all otherwise |
| Survival.RunsWait | src/matching_engine.cpp:548-665 | over every run, whatever rests is open or partly filled |
| Survival.RunsNamed | src/matching_engine.cpp:287-364 | over every run, every resting order has a nonzero id throughout if and only if no owner's replace to ref 0 is made that rests |
| Survival.RefZeroRests | src/matching_engine.cpp:313-346 | the failing case occurs after an add and a replace of it to ref 0 |
| Survival.RestingIsKept | src/matching_engine.cpp:453-477 | so after any run without such a replace, recovery from a slot array drops no resting order whose record is there |
| MatchingEngineModel.MatchingEngine.RestingSurvives | src/matching_engine.cpp:453-477 | an engine's slot array holds every resting order of every book, so recovery finds each of them |
| SharedRecovery.NextRecordFresh | src/matching_engine.cpp:460-473 | with distinct ids no record is live in the book rebuilt before it is reached |
| SharedRecovery.IdsBelow | src/matching_engine.cpp:472 | the id counter ends above every recovered id if and only if none is the largest 64-bit value |
| SharedRecovery.SeqsBelow | src/matching_engine.cpp:473 | the same for the sequence counter |
| SharedRecovery.BindAllGains | src/order_book.cpp:13-36 | binding ids one by one adds no id but theirs, and all of theirs if there is a node for each |
| Snapshots.SnapshotRoundTrip | src/order_book.cpp:271-328 | a saved book loaded into an empty one with enough slots is that book, order for order |
| Snapshots.MaximaBound | src/order_book.cpp:284-285 | no sequence or id of the stream exceeds the reported maxima |
| Snapshots.MaximaAttained | src/order_book.cpp:284-285 | each reported maximum is one of the stream's values, or zero for an empty stream |
| Snapshots.LoadedNoId | src/order_book.cpp:304-328 | loading brings in no id but those of the stream |
| WalModel.WalWriter.Append | src/wal.cpp:31-35 | the file is the ring of the log extended by the entry |
| WalModel.RingUnwrapped | src/wal.cpp:31-35 | until it wraps, the file is the log followed by zero entries |
| Runs.StepKeepsGood | src/matching_engine.cpp:70-364 | every command keeps halves sorted, quantities within the order, and books uncrossed between users except by zero-quantity orders |
| Runs.RunsStayGood | src/matching_engine.cpp:70-364 | so does every run |
| Outcomes.NeverCrossed | src/matching_engine.cpp:548-665 | from an empty exchange, if replaces have positive quantity, a resting bid at or above a resting ask has the same nonzero user |
| Outcomes.ReplaceUncrossed | src/matching_engine.cpp:287-364 | in every good state a replace leaves an uncrossed book uncrossed between users if and only if not (the old order is found and owned, the side is proper, the quantity is zero, and the other half less the old order holds an order within the limit that is not the same nonzero user's) |
| Outcomes.StepUncrossed | src/matching_engine.cpp:70-364 | a command leaves all books uncrossed between users if and only if it is not such a replace |
| Outcomes.RunsUncrossed | src/matching_engine.cpp:70-364 | over every run from a good uncrossed state, the books are uncrossed between users throughout if and only if no such replace is made |
| Outcomes.OpeningUncrossed | src/matching_engine.cpp:70-364 | the same from an empty exchange |
| Outcomes.ExecuteUncrossed | src/matching_engine.cpp:548-665 | matching a positive order and resting the remainder crosses nobody, zero-quantity orders resting or not |
| Outcomes.NoSelfTrade | src/order_book.cpp:105-143 | no trade pairs a nonzero user with itself, and each trade frame carries the resting order's id, side and price |
| Outcomes.ZeroReplaceCrosses | src/matching_engine.cpp:325-356 | two adds and then a zero-quantity replace leave the book crossed between two users |
| Outcomes.ExecuteTrades | src/matching_engine.cpp:548-665 | the quantities in the trade frames of an execution add up to what its walk traded |
| Answers.AddRefused | src/matching_engine.cpp:76-118 | why an add is refused (locate, side, price or quantity or user or ref, and for FOK the 32-bit sum of everything within its price), with no trace; an executed add is logged with its fields and, for a market order, the extreme price |
| Answers.AddAnswers | src/matching_engine.cpp:106-193 | an executed add of any time in force trades all that other users offer within its price (any price for a market order), up to its quantity, and ends with RSP_FILLED, MKT_NO_LIQUIDITY, FOK_NO_FULL_FILL, RSP_OK or POOL_FULL exactly as those volumes say; a DAY remainder joins its half behind every equal or better price with every field as stated; nothing else joins, and no other book changes |
| Answers.MarketTakesAll | src/matching_engine.cpp:120-162 | a market IOC trades the whole volume of other users on the other side, up to its quantity; it answers MKT_NO_LIQUIDITY exactly when there is none and RSP_FILLED exactly when there is enough |
| Answers.NothingLeft | src/matching_engine.cpp:144-177 | an IOC, a FOK or a filled add leaves no order with its ref |
| Answers.FokExact | src/matching_engine.cpp:106-177 | fill-or-kill is all-or-nothing (filled with exactly the quantity asked for in its trade frames, or refused with no trace) if and only if not (the 32-bit sum of all volume within its price suffices while the volume of other users does not); in that case it trades that volume, logs, and answers FOK_NO_FULL_FILL |
| Answers.FokAllOrNothing | src/matching_engine.cpp:106-177 | with no own order within its price it is all-or-nothing, and below 2^32 it trades exactly the quantity if and only if the volume within its price reaches it |
| Answers.FokOwnOrder | src/order_book.cpp:145-170 | the failing case occurs after a single add from an empty exchange |
| Answers.CancelAnswers | src/matching_engine.cpp:196-236 | an owner's cancel of an indexed order answers RSP_CANCELLED and takes out exactly that order; anyone else's answers ORDER_NOT_FOUND and changes nothing; either is logged |
| Answers.CancelSharesAnswers | src/matching_engine.cpp:238-285 | an owner's partial cancel below the remainder answers RSP_OK and lowers the remainder by exactly the shares at the same place, every other field unchanged; for the remainder or more it answers RSP_CANCELLED and the id is live and indexed no more; anyone else's answers ORDER_NOT_FOUND and changes nothing |
| Answers.ReplaceAnswers | src/matching_engine.cpp:287-364 | an owner's replace takes the old order out and runs the new ref, as its own user, as a DAY order with the given side, price and quantity; anyone else's answers ORDER_NOT_FOUND and changes nothing; what the log entry holds |
| Answers.UnknownOrder | src/matching_engine.cpp:196-364 | a cancel, partial cancel or replace of an order the book or index does not have answers ORDER_NOT_FOUND and changes nothing |
| Volumes.LimitMeans | src/matching_engine.cpp:95-124 | the price an order is matched at reaches exactly the prices within its own, and all prices for a market order |
| Outcomes.PoolFullChangesNothing | src/matching_engine.cpp:178-193 | an add answered POOL_FULL traded nothing and changed no book, slot or index entry |
| Outcomes.ReplaceNeverPoolFull | src/matching_engine.cpp:325-356 | a replace with a proper side never answers POOL_FULL |
| Outcomes.AnswersOnce | src/matching_engine.cpp:70-364 | every command but an IOC or FOK add answers with trades and then exactly one other frame |
| Ledger.StepKeepsUnique | src/matching_engine.cpp:70-364 | permitted commands keep ids unique over all books |
| Ledger.OnePlace | src/order_book.cpp:8-103 | then an id determines one book, side and position |
| Ledger.RunsAccount | src/matching_engine.cpp:238-285 | over every legal run each resting order has original = filled + remaining + partially cancelled, without wrap, and ids stay unique |
| Ledger.OpeningRunsAccount | src/matching_engine.cpp:238-285 | so from an empty exchange every legal run accounts for every share of every resting order |
| Ledger.StepBalances | src/matching_engine.cpp:548-665 | one command adds twice the quantity in its trade frames to the fills of resting and departed orders |
| Ledger.RunsBalance | src/matching_engine.cpp:548-665 | over every run total filled is twice total traded |
| Priority.TimePriority | src/matching_engine.cpp:126-193 | over every run from an empty exchange short of 2^64 commands, of two orders resting on one side at one price the one in front has the smaller sequence number |
| Priority.StepTimed | src/matching_engine.cpp:70-364 | every command keeps that order, and keeps the sequence counter above every resting number |
| Indexing.RunsIndexExact | src/order_book.cpp:8-103 | over every legal run from an empty exchange whose inserts succeed, the index holds exactly the ids of the resting orders |
| Indexing.OwnerCancelAnswered | src/matching_engine.cpp:196-236 | then an owner's cancel of a resting order at its own locate is answered RSP_CANCELLED, and the id is neither live nor indexed after |
| Indexing.StepKeepsIndexLive | src/matching_engine.cpp:70-364 | no command, whatever the index answers, leaves an index entry for an id that is not live |
| Indexing.StepKeepsComplete | src/matching_engine.cpp:70-364 | with unique ids, every command the index accepts keeps every live id in the index |
| Indexing.GoneLeaves | src/matching_engine.cpp:586-600 | each maker a match uses up, and so drops from the index, leaves the half |
| Indexing.RoomForAll | src/order_book.cpp:8-38 | an index with a node for each command of a run takes every id |
| Indexing.NewIndexExact | src/order_book.cpp:8-103 | so an exchange over a new index keeps it exact over every legal run no longer than its capacity |
| IndexRuns.RoomAnswers | src/matching_engine.cpp:70-364 | every command takes at most one index node, and its id is taken while one is free |
| IndexRuns.NextKeepsKeys | src/matching_engine.cpp:70-364 | every command keeps the ids of the index value those the state says are indexed |
| IndexRuns.AnsweredRun | src/matching_engine.cpp:70-364 | the run of commands over exchange and index is the run under the answers that index gives, so statements for every answer apply to it |
| IndexRuns.DroppedKeys | src/matching_engine.cpp:586-600 | erasing used-up makers one by one removes exactly their ids |
| Replay.WalRebuilds | src/matching_engine.cpp:391-451 | every history of DAY adds with fresh ids, full cancels and owner-issued partial cancels that fits the file, whatever its index refused, is rebuilt by replaying the file, zero tail included, over the index value it started with: same books in price, queue order, owner and quantities with every sequence number exactly one higher, same index value, and next_sequence_ above every resting sequence |
| Replay.HistoryReplays | src/matching_engine.cpp:391-451 | replaying the log from an equal state over the same index keeps state and index equal throughout the history, answers included |
| Replay.StepReplays | src/matching_engine.cpp:131-222 | one logged command, replayed with the same index answer, has the same effect on equal states |
| Replay.StepIndexed | src/matching_engine.cpp:131-222 | one logged command, replayed, gets the same answer from the same index and changes it alike |
| Replay.AddReplaysExact | src/matching_engine.cpp:411-429 | a logged add answered x live and y on replay has the same effect if and only if x is y or the add rested nothing |
| Replay.RefusedInsertDiverges | src/matching_engine.cpp:391-451 | an index of another size need not do: on a new two-node index the third of three adds is refused and its cancel finds nothing; replayed on a new four-node index the cancel removes the order |
| Replay.PartialCancelReplay | src/matching_engine.cpp:433-438 | replaying a partial cancel repeats it if and only if the order is absent, the owner issued it, or it was for zero |
| Replay.ForeignPartialCancel | src/matching_engine.cpp:433-438 | the failing case occurs: after one add, a partial cancel by another user is refused live and applied on replay |
| Replay.FilePermitted | src/matching_engine.cpp:391-451 | the file of a history can be replayed over the index value the history started with, an id added again after its cancel included |
| Replay.HistoryPermitted | src/matching_engine.cpp:391-451 | the same from any live state and an equal one |
| Replay.ZeroTail | src/matching_engine.cpp:400-447 | the unwritten tail of the file changes no book and no sequence counter |
| Replay.ReplayIds | src/matching_engine.cpp:445 | after a replay next_order_id_ is above every id in the log if and only if none is the largest 64-bit value |
| Repeats.StepReplaysExact | src/matching_engine.cpp:391-451 | for every command, replaying what it logged from an equal state repeats it if and only if it is a full cancel, a DAY add or a refused one, an IOC or FOK with nothing left or no slot for it, a partial cancel that found nothing or was the owner's or for zero, or a refused replace with no order of its new ref and user |
| Repeats.UnfilledReplays | src/matching_engine.cpp:411-429 | the IOC and FOK case: replay rests what the live engine dropped |
| Repeats.ReplaceReplays | src/matching_engine.cpp:439-442 | the replace case: replay knows only the new ref, and cancels it |
| Spsc.RunsSafe | include/spsc_byte_ring.h:29-97 | every interleaving of producer and consumer loads, byte copies and stores, with counters wrapping any number of times: consumed bytes are a prefix of produced ones, bytes in flight fit the ring, and an acquired region shows the next bytes in every state until released |
| Spsc.NoSideBlocked | include/spsc_byte_ring.h:29-97 | neither side ever touches a position outside the buffer |
| Spsc.PushTakes | include/spsc_byte_ring.h:29-37 | the wrapped subtraction gives the true free space as of the loaded head |
| Spsc.AcquireTakes | include/spsc_byte_ring.h:55-69 | the wrapped subtraction gives the true used space, and the region stops at the end of the buffer |
| Spsc.TargetExact | include/spsc_byte_ring.h:38-46 | the two copies put byte i of a push at its place in the ring |
| Spsc.CopyKeepsLive | include/spsc_byte_ring.h:41-46 | writing a byte of a push never touches a byte still in flight |
| Spsc.WrapThenRing | include/spsc_byte_ring.h:36-38 | masking a wrapped counter gives the position of the unwrapped one, as the ring size divides the counter range |
| SendLoop.RunsDeliver | src/main.cpp:190-254 | over every run of whole-batch pushes and partial or retried sends, with each ring call one move, the Send thread never decodes a torn or foreign header, looks for headers only at batch boundaries, and each connection has received its batches concatenated in push order, all of them once the ring is drained |
| RingLink.RingDelivers | src/main.cpp:190-254 | the same, boundary clause included, over every interleaving of the two threads' loads, byte copies and stores on the ring itself, with counters wrapping any number of times |
| RingLink.RunSimulates | include/spsc_byte_ring.h:29-97 | every run of the two threads over the ring is, seen from the link, a run of the link model |
| RingLink.ActSimulates | include/spsc_byte_ring.h:29-97 | each single load, copy or store is one move of the link model or none, and keeps the joint invariant |
| RingLink.AtBoundary | src/main.cpp:195-215 | the reader looks for a header only at the start of a batch, also while an acquire is under way |
| SendLoop.NoMoveBlocked | src/main.cpp:195-252 | the Send thread is never in a state it has no step for, and the second read of a split header always finds the rest |
| SendLoop.HeaderRoundTrip | include/protocol.h:77-129 | the connection and byte count are read back from any header, whatever its unset bytes hold |
| SendLoop.KeepPushHeader | src/tcp_server.cpp:352-357 | keeps the link invariant, in which the ring then holds the whole header: after the free-space test the push is never cut short |
| SendLoop.KeepPushBody | src/tcp_server.cpp:352-358 | keeps the link invariant, in which the ring then holds the whole body too |
| SendLoop.ShownHeader | include/spsc_byte_ring.h:79-86 | at a boundary the first read shows the header up to the end of the buffer |
| SendLoop.ShownRest | include/spsc_byte_ring.h:88-96 | the second read of a pop shows the rest of the header |
| SendLoop.KeepSendSome | src/main.cpp:239-245 | a partial send delivers the next bytes of the current body to its own connection |
| SendLoop.RingTakes | include/spsc_byte_ring.h:29-50 | the ring takes of a push what the link model says |
| SendLoop.RingFits | include/spsc_byte_ring.h:8-19 | the program's ring holds a header, and its size divides the 64-bit counter range |
| Mpsc.RunsSafe | include/mpsc_ring.h:34-64 | for any number of producers, if no claim k + CAPACITY precedes the occupied mark of claim k, two producers never write one slot, and the consumer takes the committed data of handles 0, 1, 2, ... each exactly once |
| Mpsc.MarkOverwritesNothing | include/mpsc_ring.h:34-40 | a slot is marked only when free and after its previous occupant was consumed |
| Mpsc.StepKeeps | include/mpsc_ring.h:34-64 | each load or store keeps the invariant that every handle given out is consumed, waiting in its slot, or with its claimer |
| Mpsc.EarlyClaimLosesData | include/mpsc_ring.h:34-45 | without that condition, at every capacity, a run exists in which the consumer takes data its handle never committed |
| ItchFraming.DrainSplit | src/tcp_server.cpp:238-264 | draining a part and then the leftover with the rest is draining it all, resynchronisation on bad lengths included |
| ItchFraming.ChunkingIrrelevant | src/tcp_server.cpp:221-264 | any two ways of cutting a stream into receives give the same messages and leftover as one drain |
| ItchFraming.FramesRoundTrip | src/tcp_server.cpp:245-259 | framed messages of 1 to 4096 bytes come out as they went in |
| ItchFraming.AnyChunksDeliver | src/tcp_server.cpp:221-264 | so a client's messages reach the engine however the network cuts them |
| ItchFraming.ConnContext.AppendRead | include/tcp_server.h:42-46 | the unread bytes grow by what was received |
| ItchFraming.ConnContext.Compact | include/tcp_server.h:49-58 | consumed bytes go, unread bytes stay |
| ItchParserModel.ReadU64 | src/itch_parser.cpp:15-19 | the loop computes the big-endian value of eight bytes |
| ItchParserModel.U32Value | src/itch_parser.cpp:11-14 | the shifts compute the big-endian value of four bytes |
| ItchParserModel.U16Value | src/itch_parser.cpp:8-10 | the shifts compute the big-endian value of two bytes |
| ItchParserModel.ItchParser.Feed | src/itch_parser.cpp:22-90 | classifies every body as the model does, and updates the symbol table only on a directory message |
| ItchParserModel.ReadSymbol | src/itch_parser.cpp:31-37 | the name before the first zero byte, without trailing spaces |
| ItchParserModel.SymbolUnique | src/itch_parser.cpp:31-37 | that description fixes the name |
| ItchParserModel.PaddedSymbol | src/itch_parser.cpp:31-37 | a name padded with spaces is read back |
| ItchParserModel.AddRoundTrip | src/itch_parser.cpp:42-51 | an Add Order message of either type gives its locate, reference, side, shares and ticks / 100 as its price |
| ItchParserModel.DeleteRoundTrip | src/itch_parser.cpp:52-59 | an Order Delete message gives its locate and reference |
| ItchParserModel.CancelRoundTrip | src/itch_parser.cpp:60-68 | an Order Cancel message gives its locate, reference and shares |
| ItchParserModel.ReplaceRoundTrip | src/itch_parser.cpp:69-79 | an Order Replace message gives its locate, both references, shares and ticks / 100 as its price |
| ItchParserModel.BookRoundTrip | src/itch_parser.cpp:80-85 | a book query gives its locate |
| TcpServerModel.TcpServer.ProcessItchMessage | src/tcp_server.cpp:385-424 | an unrecognised message does nothing; an event drives the engine with its reference as the user and yields exactly that command's responses |
| TcpServerModel.TcpServer.ServeReplace | src/tcp_server.cpp:403-416 | a replace takes the old order's side, or is refused when there is none |
| TcpServerModel.TcpServer.DrainBuffered | src/tcp_server.cpp:238-264 | the engine state, index value and responses are those of serving the drained messages in order, and the unread bytes are the drain's leftover |
| TcpServerModel.TcpServer.OnRecv | src/tcp_server.cpp:221-236 | the same, with what was left over before in front |
| TcpServerModel.ServeAnswersOnce | src/tcp_server.cpp:385-424 | every event is answered by trades and then exactly one other frame |
| TcpServerModel.OneAnswerPerEvent | src/tcp_server.cpp:238-424 | over any drained stream the non-trade frames are as many as the recognised events |
| Messages.AddServed | src/tcp_server.cpp:394-397 | from the bytes of an Add Order message: the reference is order and user, the price is ticks / 100, what others offer within it is traded, and the remainder joins the half of its side with every field as stated; a zero field is refused |
| Messages.QuietAddServed | src/tcp_server.cpp:394-397 | with nothing in reach and a free slot the whole order joins its half, answered RSP_OK |
| Messages.DeleteServed | src/tcp_server.cpp:398-400 | from the bytes of an Order Delete message: that order is taken out and answered RSP_CANCELLED |
| Messages.CancelServed | src/tcp_server.cpp:401-403 | from the bytes of an Order Cancel message: that order is lowered by exactly its shares, or taken out |
| Messages.ReplaceServed | src/tcp_server.cpp:404-417 | from the bytes of an Order Replace message: the old order is taken out and the new reference runs on the old order's side at ticks / 100 |
| Messages.UnknownServed | src/tcp_server.cpp:398-417 | a delete, cancel or replace of an unknown order answers ORDER_NOT_FOUND and changes nothing |
| Messages.BookServed | src/tcp_server.cpp:418-422 | from the bytes of a book query: best prices and volumes of that locate, and nothing changes |

## Left out

- Concurrent use of the index: a head exchange can succeed after treeify copied the chain, and a reader can follow a freed node; `OrderMap` is modelled in sequential use, where each exchange succeeds at once and the re-checks never fire.
- Rebuilding histories with carried-out replaces or unfilled IOC and FOK adds, replay after the log wraps, and replaying twice: the log does not hold what they would need (`StepReplaysExact` says exactly which commands are lost).
- Recovery from the slot array against the book before the crash: freed slots keep their id and status and time priority is not kept, so only the compaction itself is exact.
- The direct-send fallback, the SEND_ZC path, failing sends, RSP_CLOSE frames, the close handshake and descriptor reuse: they depend on the kernel or break framing by design.
- Weak memory: the interleavings are sequentially consistent.
- The bytes of a snapshot file and its magic number: the model starts at the stream of orders.
- Sockets, io_uring, eventfd, signals, the fork checkpoint, memory mapping, logging, metrics and heartbeats: plumbing.
- The OUCH codec and the trade server: one direction of each message only.
- The trade pool, book printing and the symbol lookup by name: only easy facts.
