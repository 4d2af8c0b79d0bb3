# The exchange's order path, modelled and proved

This project models the order path of a small electronic exchange: gateway workers read orders from TCP clients,
place them in slots of a memory pool, hand them through single-producer single-consumer queues to engine shards,
the shards match them in a price-time priority book, and three streams come out: public market data (ITCH), a
drop-copy audit trail, and private acknowledgements that travel back to the clients' sockets. Two further
components rebuild books from those streams (the monitor in Python, the trading firm in C++), and a shared-memory
region publishes statistics under a sequence lock.

## What is proved

1. **The fast book is the simple book.** `ReferenceBook` searches all resting orders for the best price and the
   earliest arrival. `FastBook.OrderBook` is the production structure: intrusive lists threaded through the pool,
   a two-level bitmap per side, cached best prices, `orders_by_id`. For every sequence of submissions and cancels
   both hold the same resting orders and emit the same messages in the same order (`FastBook.Execute`). A whole
   engine shard, with one book per instrument on one shared pool and index and the stale-cancel check in front, does
   the same for every sequence of tasks (`EngineShard.Serve`), so that everything proved of reference runs holds of
   each of its books (`ShardReference.ShardIsRun`). The cached best prices are bounds only; `Valid()` asks exactly
   that no resting price is better, also when a side was swept empty and refilled. A price is marked exactly when its
   level is non-empty. Of the simple book itself it is proved that an order loses shares only after everything with
   priority over it is gone, that nothing else in the book moves, and what becomes of the remainder (`Priority`).
2. **Slots and cancels over every interleaving.** `SlotProtocol` is a step system over workers and shards with
   recycled slots and reused tokens; `SlotInvariants` proves that every slot is in exactly one place, that a cancel
   only removes an order with its token submitted on the same connection, and that a full recycle queue and the
   invalid-instrument branch never happen. `ServedRuns` closes the circle: when the engines of that step system run
   the book, one step at a time and interleaved with everything else, the tasks they pop are ones the books can serve
   (the premise of `EngineShard.Serve`), their resting orders are the union of the reference books, and exactly the
   slots those books free are recycled, in order, each to its owner. What an engine has popped from a worker's lane,
   followed by what is queued there, is exactly what the worker submitted (`ServedOrders.LanesAreFifo`); every order
   popped was entered by its client as it stands, every resting one up to its quantity; what a client enters or cancels
   arrives (`Entered`).
3. **The ring** of `LockFreeQueue` at the level of single loads and stores, in every interleaving.
4. **The gateway's byte streams**: inbound framing is independent of how the stream is cut into reads, and requests
   packed back to back are read as those requests; outbound, bytes sent plus bytes buffered are the reports of the
   connection's own client, whatever `send` does, and bytes stay buffered only after a send that would have blocked.
5. **Audit, trades and wire.** Every drop-copy stream is accepted by an automaton whose open lives are the resting
   book; from its submission to the end of any run, an order's fills plus its rejected, cancelled or resting remainder
   are its original quantity. Acknowledgements come in pairs, one per trade with the best resting order at its price.
   Market data, drop copies and acknowledgements agree, message by message, on prices and quantities (`Streams`).
   In every run of workers and engines, and however a worker drains its ack queues, every 32 bytes it owes a client
   decode to an execution of an order that client submitted, and once a shard's queue is drained no execution of that
   client's orders on the shard is missing (`Wire.EveryRunEndToEnd`, `Wire.EveryRunTellsAll`).
6. **Reconstructions.** A monitor that hears everything rebuilds every book of a shard exactly, orders and levels
   (`FeedSet.Rebuild`). Its levels go on aggregating its orders unless a message ends an order and leaves only empty
   orders at its price. When removals are lost, no repair at any point of a run can evict a live order if and only if
   no message arrives that refreshes an entry crossing a live order (`FeedRepair.AlwaysSparesIff`); an aggressor's
   execution on a recycled reference can be such a message, an order's own never is. The firm's array book and map
   book show the same exactly on the tick streams that `FirmBooks.AllGood` describes: any other stream can be told
   apart by ordinary ticks. After ordinary ticks they show the best prices at which more was added than traded, and
   how much more.
7. **The sequence lock** never returns a torn block while fewer than 2^31 writes overlap one attempt, and the bound
   is exact: a run with 2^31 writes returns a torn one. A read gives up only when its last attempt has failed.

## How it is organised

| files | content |
|---|---|
| `MachineInts` | fixed-width integers |
| `Words`, `Ladder` | 64-bit words as bit sequences, the two-level price bitmap |
| `Orders`, `ReferenceBook`, `Levels` | orders and messages, the simple book, its price levels |
| `LimitQueue`, `FastBook` | intrusive lists on pool snapshots, the production book class |
| `ShardReference`, `EngineShard` | a shard of books by reference, and the engine that dispatches to many production books |
| `Priority` | price-time priority and what becomes of an incoming order |
| `DropCopyLedger`, `Trades`, `Streams` | audit automaton, private acknowledgements, agreement of the three streams |
| `SlotProtocol`, `SlotInvariants`, `SlotPool`, `Sessions` | slot and identity protocol, the pool and session classes |
| `EngineRefinement`, `ServedRuns` | the book's steps as engine steps, and the protocol with engines that run the book |
| `Entered`, `ServedOrders` | orders and cancels traced between clients, queues, engines and books |
| `SpscQueue` | the ring, step by step, and as a class |
| `Framing`, `Messages`, `Egress`, `Codec`, `Wire` | the gateway's byte streams, inbound requests, digit and binary fields, execution reports |
| `FeedTable`, `FeedBook`, `FeedReplay`, `FeedRepair`, `FeedSet` | the monitor's book, its replay, its repair, and the set of all books |
| `FirmSides`, `FirmBooks` | one side of the firm's two depth books as values, the two book classes |
| `Seqlock` | statistics region and reader |

Conventions: integers are unbounded except where a width matters, where the wrap is written out (`% WRAP32` in
`FirmSides` and `Seqlock`, `bv64` in `Sessions`, field widths in `Wire` and `Messages`). All messages of a book go to
one log, a history that no operation reads, so the order between streams is part of every statement. Classes follow
objects that the original updates in place; their methods are proved against the pure definitions. `hide` keeps
definitions that a step does not need out of its proof.

Two places where names or documentation and code differ, and the code is followed: orders priced 100001 to
10,000,000 pass the gateway's risk check and are then discarded by the book without any report; `size()` of the ring
loads tail before head, so it is exact only as stated in `SpscQueue.SizeIsExactIff`, and can report a full ring when
it is empty.

## Model

| member | source | states |
|---|---|---|
| `Words.CountTrailingZeros` | hft_engine/src/matching/orderbook.h:82-83 | on a non-zero word, the lowest set bit |
| `Words.CountLeadingZeros` | hft_engine/src/matching/orderbook.h:112-113 | on a non-zero word, 63 minus the highest set bit |
| `Ladder.PriceBitmap.SetBit` | hft_engine/src/matching/orderbook.h:62-66 | exactly one more price is marked; the summary level stays exact |
| `Ladder.PriceBitmap.ClearBit` | hft_engine/src/matching/orderbook.h:68-74 | exactly one price is unmarked; a summary bit goes only with the last price of its word |
| `Ladder.PriceBitmap.NextWord` | hft_engine/src/matching/orderbook.h:85-104 | the next non-zero first-level word above, every word between being zero, with both mask guards |
| `Ladder.PriceBitmap.PreviousWord` | hft_engine/src/matching/orderbook.h:115-134 | the same downwards |
| `Ladder.PriceBitmap.FindNextAsk` | hft_engine/src/matching/orderbook.h:77-105 | the least marked price at or above the start, or -1 exactly when there is none; indices in range, no count on a zero word |
| `Ladder.PriceBitmap.FindNextBid` | hft_engine/src/matching/orderbook.h:108-135 | the greatest marked price at or below the start, or -1 when there is none |
| `LimitQueue.AddLinks` | hft_engine/src/matching/orderbook.h:26-36 | after add the doubly linked list holds the old queue followed by the new order |
| `LimitQueue.RemoveLinks` | hft_engine/src/matching/orderbook.h:38-44 | after remove the list holds the old queue without that order, in order, and the removed node is unlinked |
| `LimitQueue.RemoveThread` | hft_engine/src/matching/orderbook.h:38-48 | removal from one level leaves every other level of both sides threaded through the shared pool |
| `LimitQueue.AddThread` | hft_engine/src/matching/orderbook.h:26-48 | so does an append |
| `Levels.HeadIsBest` | hft_engine/src/matching/orderbook.h:258-262 | the head of the best non-empty level is the order a full price-time search picks |
| `ReferenceBook.BestIsBest` | hft_engine/src/matching/orderbook.h:258-262 | the search returns the best price and the earliest arrival at it, or -1 exactly on an empty side |
| `ReferenceBook.MatchKeepsHealth` | hft_engine/src/matching/orderbook.h:250-378 | matching keeps ids distinct, quantities positive, prices on the ladder and every bid strictly below every ask |
| `ReferenceBook.ApplyKeepsHealth` | hft_engine/src/matching/orderbook.h:217-378 | every request keeps that |
| `ReferenceBook.RunIsHealthy` | hft_engine/src/matching/orderbook.h:217-378 | so it holds after every legal run |
| `Priority.OthersUntouched` | hft_engine/src/matching/orderbook.h:255-378 | an order that the incoming one does not cross, its own side included, is as it was |
| `Priority.PriorityRespected` | hft_engine/src/matching/orderbook.h:258-305 | if a resting order lost shares, every order of its side with a better price, or the same price and an earlier arrival, is gone |
| `Priority.MatchSettles` | hft_engine/src/matching/orderbook.h:262-316 | what its fills leave of an incoming order rests behind all others exactly when it crosses nothing any more; otherwise it does not rest, and the best order it still crosses is its own client's |
| `FastBook.OrderBook.constructor` | hft_engine/src/matching/orderbook.h:195-212 | an empty book on a shared pool is valid |
| `FastBook.OrderBook.Link` | hft_engine/src/matching/orderbook.h:26-36 | the in-place append, against its effect on pool and list |
| `FastBook.OrderBook.Unlink` | hft_engine/src/matching/orderbook.h:38-44 | the in-place removal, against its effect on pool and list |
| `FastBook.OrderBook.MatchHead` | hft_engine/src/matching/orderbook.h:262-293 | one round takes the reference book's best order, or rejects exactly on a self-trade |
| `FastBook.OrderBook.FillLevel` | hft_engine/src/matching/orderbook.h:261-294 | the inner loop is progress of the reference match: what remains to be matched completes it |
| `FastBook.OrderBook.NextAsk` | hft_engine/src/matching/orderbook.h:295-303 | after an emptied level the book is valid again and no ask is below the next price, also when the cached best stays stale |
| `FastBook.OrderBook.NextBid` | hft_engine/src/matching/orderbook.h:353-363 | the mirror image, with the guard at price 0 |
| `FastBook.OrderBook.SweepAsks` | hft_engine/src/matching/orderbook.h:258-305 | the buy loop stops with no crossing ask, with nothing left, or with the reference's rejection |
| `FastBook.OrderBook.SweepBids` | hft_engine/src/matching/orderbook.h:318-365 | the sell loop, likewise |
| `FastBook.OrderBook.RestOrder` | hft_engine/src/matching/orderbook.h:307-315 | the remainder rests at the tail of its level with bitmap, index and cached best kept |
| `FastBook.OrderBook.MatchOrder` | hft_engine/src/matching/orderbook.h:250-378 | book and messages become those of the reference submission; slots that rest nowhere are untouched |
| `FastBook.OrderBook.RetreatBid` | hft_engine/src/matching/orderbook.h:228-234 | a cancelled last bid of a level leaves bitmap and cached best valid |
| `FastBook.OrderBook.RetreatAsk` | hft_engine/src/matching/orderbook.h:237-243 | the same for asks |
| `FastBook.OrderBook.CancelOrder` | hft_engine/src/matching/orderbook.h:217-248 | book and messages become those of the reference cancel; unknown ids change nothing |
| `FastBook.Execute` | hft_engine/src/matching/orderbook.h:217-378 | for every legal sequence of requests, the same resting orders and the same message log as the reference run |
| `EngineShard.OtherBook` | hft_engine/src/matching/engine.cpp:31-34 | books share the pool and orders_by_id: whatever one book does leaves every other book valid |
| `EngineShard.Engine.constructor` | hft_engine/src/matching/engine.cpp:19-34 | a shard of empty books on one pool and one index is valid |
| `EngineShard.Engine.Deliver` | hft_engine/src/gateway/tcp_server.h:534-547 | writing a new order into a free slot disturbs no book |
| `EngineShard.Engine.MatchTask` | hft_engine/src/matching/engine.cpp:50-57 | the book of the order's instrument does the reference submission, every other book is as it was |
| `EngineShard.Engine.CancelTask` | hft_engine/src/matching/engine.cpp:58-68 | exactly the book that holds the slot's order under that token does the reference cancel; a stale cancel changes nothing |
| `EngineShard.Serve` | hft_engine/src/matching/engine.cpp:41-69 | for every deliverable sequence of tasks each instrument's fast book has the resting orders and messages of its own reference book |
| `ShardReference.ShardIsRun` | hft_engine/src/matching/engine.cpp:41-69 | each of those reference books is a legal run of the requests that concern it |
| `ShardReference.LogFromBook` | hft_engine/src/matching/engine.cpp:31-34 | every message a shard pushes is a message of one of its books |
| `DropCopyLedger.MatchTracked` | hft_engine/src/matching/orderbook.h:274-316 | the automaton of allowed histories accepts every message of one order's match and ends on the new book |
| `DropCopyLedger.ApplyTracked` | hft_engine/src/matching/orderbook.h:222-223 | the same for any request, cancels and silent discards included |
| `DropCopyLedger.RunAudited` | hft_engine/src/matching/orderbook.h:154-193 | over every legal run: PARTIAL* (FILLED, REJECTED, or NEW PARTIAL* then FILLED, CANCELED or still resting), and the open lives are the resting book |
| `DropCopyLedger.LifeConserves` | hft_engine/src/matching/orderbook.h:274-277 | along any accepted messages, the freeing of the slot included, fills plus closed remainder plus what stays open equal what was open |
| `DropCopyLedger.RunConserves` | hft_engine/src/matching/orderbook.h:154-193 | over every run, from its submission on and while its slot is not given to another, an order's fills plus its rejected, cancelled or resting remainder are its original quantity |
| `DropCopyLedger.SilentIffDiscarded` | hft_engine/src/matching/orderbook.h:250-254 | a submission causes no drop copy exactly when it has no quantity, a price off the ladder or an id off the table |
| `Streams.MatchAgrees` | hft_engine/src/matching/orderbook.h:271-283 | in one match, public executions, drop-copy fills and acknowledgements have the same prices and quantities, trade by trade; announcements have those of the NEW reports |
| `Streams.RunAgrees` | hft_engine/src/matching/orderbook.h:222-283 | over every run, cancellations included |
| `Streams.FillsAreAcknowledged` | hft_engine/src/matching/orderbook.h:274-283 | the i-th fill reported has token, price and shares of the i-th acknowledgement |
| `Trades.MatchOnlyTrades` | hft_engine/src/matching/orderbook.h:259-293 | acknowledgements come in pairs, each a trade with the best order of what then remains of the book: its submitter and the aggressor, two different clients, as many shares as both have left, at the resting order's price, within the aggressor's limit |
| `Trades.TradesNet` | hft_engine/src/matching/orderbook.h:172-183 | such pairs net to zero shares and zero cash |
| `Trades.RunNets` | hft_engine/src/matching/orderbook.h:282-283 | every legal run nets to zero shares and zero cash |
| `Trades.RunNamesSubmitters` | hft_engine/src/matching/orderbook.h:172-183 | every acknowledgement carries token, client and worker of a submitted order |
| `SpscQueue.StepKeepsInv` | hft_engine/src/core/lock_free_queue.h:12-38 | every load or store of either side keeps the ring invariant, lagging cached indices included |
| `SpscQueue.RunIsFifo` | hft_engine/src/core/lock_free_queue.h:12-38 | in every interleaving popped items are a prefix of pushed items and at most Capacity - 1 are held |
| `SpscQueue.RefusesOnlyAtLimits` | hft_engine/src/core/lock_free_queue.h:16-33 | push refuses exactly when Capacity - 1 items are held at its load of head, pop exactly when none is at its load of tail |
| `SpscQueue.NeverOverwritesUnread` | hft_engine/src/core/lock_free_queue.h:21-22 | the slot written holds no unread item |
| `SpscQueue.SizeIsExactIff` | hft_engine/src/core/lock_free_queue.h:47-51 | size is the number of items held at its load of head exactly when tail has not moved since its load, and the number held at its load of tail exactly when head has not |
| `SpscQueue.SizeReported` | hft_engine/src/core/lock_free_queue.h:47-51 | what it returns otherwise: what is left of the items of then, or Capacity - d after d pops past the loaded tail |
| `SpscQueue.SizeReportsFullOnEmpty` | hft_engine/src/core/lock_free_queue.h:47-51 | a run with one push and one pop between the loads, in which size reports Capacity - 1 on an empty ring |
| `SpscQueue.WholePush` | hft_engine/src/core/lock_free_queue.h:12-24 | an uninterrupted push is the atomic append of the step system |
| `SpscQueue.WholePop` | hft_engine/src/core/lock_free_queue.h:27-38 | an uninterrupted pop takes the oldest item |
| `SpscQueue.LockFreeQueue.Push` | hft_engine/src/core/lock_free_queue.h:12-24 | appends, or refuses exactly when full |
| `SpscQueue.LockFreeQueue.Pop` | hft_engine/src/core/lock_free_queue.h:27-38 | takes the first item, or refuses exactly when empty |
| `SlotPool.MemoryPool.constructor` | hft_engine/src/core/memory_pool.h:34-41 | slices start empty, slot 0 reserved |
| `SlotPool.MemoryPool.Allocate` | hft_engine/src/core/memory_pool.h:78-93 | a slot of the worker's own slice that nobody holds, the oldest recycled one if there is any; none exactly when the whole slice is in use |
| `SlotPool.MemoryPool.Deallocate` | hft_engine/src/core/memory_pool.h:95-101 | the slot is free again, at the back of its owner's queue |
| `SlotPool.MemoryPool.SlotsUsed` | hft_engine/src/core/memory_pool.h:107-113 | the reserved slot plus the number of slots ever issued |
| `SlotPool.MemoryPool.IssuedIsLiveOrQueued` | hft_engine/src/core/memory_pool.h:78-101 | issued slots are exactly those in use or queued with their owner |
| `Sessions.PackRoundTripIff` | hft_engine/src/gateway/session_manager.h:63-81 | the three fields come back exactly when handle and instrument fit 20 and 8 bits |
| `Sessions.SessionManager.RecordOrder` | hft_engine/src/gateway/session_manager.h:63-71 | one entry changes, whatever the fields; tokens beyond the map are ignored |
| `Sessions.SessionManager.LookupData` | hft_engine/src/gateway/session_manager.h:73-81 | handle 0 when nothing was recorded; what was recorded comes back exactly when it fits its fields, so if all recorded handles fit and are not 0, a non-zero handle means registered |
| `SlotInvariants.StepKeeps` | hft_engine/src/gateway/tcp_server.h:501-590 | every atomic step of every worker and shard keeps the protocol invariant |
| `SlotInvariants.RunInv` | hft_engine/src/matching/engine.cpp:37-83 | so it holds after every interleaving of any length |
| `SlotInvariants.SlotHasOnePlace` | hft_engine/src/core/memory_pool.h:34-101 | each slot is in exactly one place: never issued, recycled, in the worker's hand, in one in-flight NEW, resting, or in the engine's hand |
| `SlotInvariants.CancelHitsSendersOrder` | hft_engine/src/matching/engine.cpp:58-68 | a cancel removes only an order with its token, submitted on the connection that sent it, despite recycled slots and reused tokens |
| `SlotInvariants.NewOrderIsFresh` | hft_engine/src/matching/engine.cpp:50-57 | a popped order has a valid instrument of that shard, and its slot rests nowhere: the invalid branch is unreachable |
| `SlotInvariants.RecycleNeverFull` | hft_engine/src/core/memory_pool.h:95-101 | the spinning push of deallocate always has room |
| `EngineRefinement.MatchIsEngineRun` | hft_engine/src/matching/orderbook.h:285-316 | a match is a run of the step system's engine: same resting orders, freed slots recycled in order, nothing left in hand |
| `EngineRefinement.SubmitIsEngineRun` | hft_engine/src/matching/orderbook.h:250-254 | so is a submission, with the silent discard |
| `EngineRefinement.CancelIsEngineRun` | hft_engine/src/matching/engine.cpp:63-67 | a popped cancel is the reference cancel when the slot still holds that token, otherwise nothing |
| `ServedRuns.EngineLanes` | hft_engine/src/core/memory_pool.h:95-101 | an engine step of that trace is the protocol's own step; a recycled slot goes to the back of its owner's queue and no other |
| `ServedRuns.NextKeeps` | hft_engine/src/matching/engine.cpp:41-69 | with engines that run the book, every step of every thread keeps books, resting orders and recycled slots on track |
| `ServedRuns.EveryRunIsServed` | hft_engine/src/matching/engine.cpp:41-69 | in every interleaving the tasks popped passed the gateway's checks and are ones the books can serve; between tasks the resting orders are the union of the reference books; the slots recycled are those the books freed, in order; each recycle queue holds the last of its owner's |
| `ServedRuns.ServedIsProtocolRun` | hft_engine/src/matching/engine.cpp:41-69 | such a run is a run of the slot protocol, so everything proved of the protocol holds in it |
| `Entered.RunTraced` | hft_engine/src/gateway/tcp_server.h:501-555 | in every interleaving, an order in a worker's hand, in a queue or being matched was entered by its client with that token, price, quantity, instrument and side; a resting one up to its quantity; a cancel was asked for by its sender |
| `Entered.AcceptRegisters` | hft_engine/src/gateway/tcp_server.h:261-266 | a new connection gets the next identity and is at home with the worker that accepted it |
| `Entered.EntryArrives` | hft_engine/src/gateway/tcp_server.h:534-555 | an order that passes the checks and finds a slot is put, exactly as entered, at the end of the lane of its instrument's shard, and its token names it from then on |
| `Entered.EntryRefused` | hft_engine/src/gateway/tcp_server.h:513-546 | an order that fails the checks or finds no slot changes nothing |
| `Entered.CancelArrives` | hft_engine/src/gateway/tcp_server.h:570-590 | a cancel by the recorded client is put on the lane with the recorded slot; one by anyone else changes nothing |
| `Entered.CancelRemoves` | hft_engine/src/matching/engine.cpp:58-68 | an idle engine that pops a cancel removes the order if the slot still holds that token, otherwise nothing |
| `Entered.CancelWorks` | hft_engine/src/matching/engine.cpp:58-68 | lookup, submission, pop and recycling of a cancel for a resting order take it out of the book and give its slot back to its owner |
| `ServedOrders.ServedTraced` | hft_engine/src/gateway/tcp_server.h:501-555 | with engines that run the book, every order popped was entered as it stands, by a client at home with its worker |
| `ServedOrders.RestingWasEntered` | hft_engine/src/gateway/tcp_server.h:534-555 | between tasks, every resting order was entered by its client with at least the quantity that is left |
| `ServedOrders.LanesAreFifo` | hft_engine/src/matching/engine.cpp:41-69 | in every run, what an engine has popped from a worker's lane followed by what is queued there is exactly what that worker submitted to it, in order |
| `Framing.ParseResumes` | hft_engine/src/gateway/tcp_server.h:469-597 | parsing can stop after any byte and resume on the carried fragment |
| `Framing.Connection.Reclaim` | hft_engine/src/gateway/tcp_server.h:443-450 | compaction keeps the fragment and leaves it under 81 bytes at the front |
| `Framing.Connection.Decode` | hft_engine/src/gateway/tcp_server.h:469-597 | the parse loop decodes what the whole stream so far decodes to, and closes exactly at an unknown type |
| `Framing.Connection.HandleClient` | hft_engine/src/gateway/tcp_server.h:439-609 | any sequence of read sizes keeps that; the full-buffer disconnect is unreachable |
| `Framing.DecodeInPieces` | hft_engine/src/gateway/tcp_server.h:439-609 | the messages of a stream read in pieces are those of the stream parsed at once |
| `Messages.RequestRoundTrip` | hft_engine/src/protocol/messages.h:103-132 | an order or cancel message packed field by field has the size its type announces and reads back as it was |
| `Messages.BytesAreRequest` | hft_engine/src/protocol/messages.h:103-132 | every complete message is some request, packed |
| `Messages.StreamRoundTrip` | hft_engine/src/gateway/tcp_server.h:469-597 | requests packed back to back, with the beginning of one more, are parsed into exactly those requests and that fragment |
| `Messages.EntryIsReadIff` | hft_engine/src/gateway/tcp_server.h:501-513 | the worker reads the order that was written exactly when its token has at most 14 digits and its instrument is in range or is the invalid one |
| `Messages.MalformedIsRefused` | hft_engine/src/gateway/tcp_server.h:509-530 | an order whose token field is not 14 digits or whose symbol is not canonical changes nothing |
| `Egress.OwedInReports` | hft_engine/src/gateway/tcp_server.h:402-417 | the k-th 32 bytes owed to a client are its k-th report, uncut |
| `Egress.Client.FlushOut` | hft_engine/src/gateway/tcp_server.h:363-381 | for any results of send nothing is lost, repeated or reordered, and the bytes gone are those the sends took; it ends with bytes left exactly when the last send would have blocked, and fails exactly when the last send failed; writability is watched exactly while bytes remain |
| `Egress.Client.SendOnce` | hft_engine/src/gateway/tcp_server.h:364-371 | one turn of the loop: what a send took leaves the front of the buffer |
| `Egress.Gateway.Accept` | hft_engine/src/gateway/tcp_server.h:261-266 | a new identity enters both maps |
| `Egress.Gateway.CloseClient` | hft_engine/src/gateway/tcp_server.h:338-346 | both map directions go together, and only for a failed send, a send that would have blocked with no room for a report, or an ended inbound side |
| `Egress.Gateway.OnWritable` | hft_engine/src/gateway/tcp_server.h:276-284 | the flush is resumed: bytes stay only after another send that would have blocked; every connection's stream is kept, and the connection goes only if its socket failed |
| `Egress.Gateway.SendReport` | hft_engine/src/gateway/tcp_server.h:384-401 | the whole report is buffered within 65536 bytes, or the connection is dropped because a send failed or would have blocked with no room for it |
| `Egress.Gateway.DrainAcks` | hft_engine/src/gateway/tcp_server.h:406-429 | sent plus buffered bytes of every open connection are its own reports in order, the maps are mutually inverse, and EPOLLOUT is armed exactly where bytes remain, which is where a send of this very drain would have blocked |
| `Codec.DecodeOrderToken` | hft_engine/src/protocol/messages.h:67-75 | the number of 14 digits, or the invalid token if any byte is not a digit; no 64-bit wrap |
| `Codec.EncodeOrderToken` | hft_engine/src/protocol/messages.h:81-86 | the last 14 decimal digits, zero-padded, and nothing beyond the field |
| `Codec.TokenRoundTripIff` | hft_engine/src/protocol/messages.h:77-86 | decoding an encoded value gives it back exactly below 10^14 |
| `Codec.TokenFieldRoundTrip` | hft_engine/src/protocol/messages.h:67-86 | an accepted field is reproduced byte for byte |
| `Codec.DecodeSymbol` | hft_engine/src/protocol/messages.h:40-52 | the instrument of "STK" and five digits below the cap, or the invalid one |
| `Codec.EncodeSymbol` | hft_engine/src/protocol/messages.h:90-99 | the canonical symbol |
| `Codec.SymbolRoundTrip` | hft_engine/src/protocol/messages.h:40-99 | an encoded id decodes to itself below the cap and is invalid otherwise |
| `Codec.SymbolFieldRoundTrip` | hft_engine/src/protocol/messages.h:40-99 | only the canonical symbol decodes to an instrument |
| `Wire.ReportRoundTrip` | hft_engine/src/matching/orderbook.h:172-183 | a report reads back as token, shares, price and liquidity of its acknowledgement, under its type and flag bytes |
| `Wire.TokenIsEchoed` | hft_engine/src/matching/orderbook.h:176 | the report repeats the token field the order was entered with |
| `Wire.ClientReadsItsOwnExecutions` | hft_engine/src/gateway/tcp_server.h:402-417 | for any task sequences of the shards and any interleaving in which a worker drains their ack queues, every 32 bytes owed to a client read as an execution some shard made of an order that client submitted, under its token |
| `Wire.EveryRunEndToEnd` | hft_engine/src/gateway/tcp_server.h:402-417 | the same for every run of the step system, with no premise on the orders: they are the ones its engines have popped |
| `Wire.ClientReadsAllItsExecutions` | hft_engine/src/matching/orderbook.h:172-183 | the converse: of the reports a worker owes a client, those from one shard read, in order, as the first of the acknowledgements that shard made to that client through that worker, and as all of them once its queue is drained |
| `Wire.EveryRunTellsAll` | hft_engine/src/gateway/tcp_server.h:406-417 | in every run of workers and engines, once the client's own worker has drained a shard's queue, it owes the client one report for each acknowledgement of each of its orders there, in order |
| `FeedBook.RemoveAggregatesIff` | monitoring/core/orderbook.py:49-62 | removal keeps a side's levels the aggregate of its orders if and only if it does not leave only empty orders at the removed order's price |
| `FeedBook.Book.RemoveOrder` | monitoring/core/orderbook.py:60-62 | the order goes and its level shrinks or is deleted, in any book; aggregated levels stay so exactly under that condition |
| `FeedBook.Book.Apply` | monitoring/core/orderbook.py:64-86 | the order table after any message; aggregated levels stay so if and only if the message does not end an order (removal, completing execution, or an add for a held reference) and leave only empty orders at its price; every level always has an order |
| `FeedBook.PositiveLosesNothing` | monitoring/core/orderbook.py:49-58 | with positive remaining quantities that never happens |
| `FeedBook.EmptyAddLosesLevel` | monitoring/core/orderbook.py:49-58 | after an add without shares, the end of its neighbour leaves an order stored at a price without a level |
| `FeedBook.Book.EvictStale` | monitoring/core/orderbook.py:88-98 | in any book exactly the orders untouched for longer than the limit go, and are counted; with positive quantities the levels stay aggregated |
| `FeedBook.Book.BestBid` | monitoring/core/orderbook.py:127-128 | the greatest bid level, or none exactly when there is none |
| `FeedBook.Book.BestAsk` | monitoring/core/orderbook.py:130-131 | the least ask level, or none exactly when there is none |
| `FeedBook.Book.NextVictim` | monitoring/core/orderbook.py:116-123 | whenever the levels cross there is an order in the way, and the victim is the one touched longest ago, of several the one with the lowest reference; on aggregated levels it is the oldest order of a crossing pair of stored orders |
| `FeedBook.Book.RepairCrossed` | monitoring/core/orderbook.py:100-125 | terminates and only removes; uncrossed levels are left untouched; otherwise it ends with uncrossed levels or after exactly max_evictions removals; with positive quantities on aggregated levels it is the oldest-first repair of the order table |
| `FeedTable.LevelSigns` | monitoring/core/orderbook.py:49-58 | a level has orders exactly when some order is stored there, and no orders means no quantity; with positive entries orders mean quantity |
| `FeedReplay.MatchMirrored` | monitoring/core/orderbook.py:64-86 | the mirror follows one match, despite executions of the aggressor's never resting reference |
| `FeedReplay.RunMirrored` | monitoring/core/orderbook.py:64-86 | with no loss, folding a run's messages gives side, price and remaining quantity of every resting order, and no other |
| `FeedReplay.MirroredLevels` | monitoring/core/orderbook.py:42-58 | quantity and count per level are then the engine's |
| `FeedSet.MarketOfShard` | monitoring/core/orderbook.py:139-144 | routed by instrument, a shard's market data is each book's own |
| `FeedSet.BookSet.Apply` | monitoring/core/orderbook.py:139-144 | a message reaches the book of its instrument, made on first use, and no other |
| `FeedSet.Rebuild` | monitoring/core/orderbook.py:134-144 | fed everything a shard's engine says, at whatever times, every instrument's book has exactly the engine's orders, and at every price of both sides its total quantity and number of orders |
| `FeedRepair.VictimIsGone` | monitoring/core/orderbook.py:119-123 | if of any two crossing entries the older is not live, the victim is not live |
| `FeedRepair.RepairSparesLive` | monitoring/core/orderbook.py:100-125 | any number of evictions then spares every live order |
| `FeedRepair.SparesIff` | monitoring/core/orderbook.py:100-125 | and only then: otherwise enough evictions take a live order out |
| `FeedRepair.BreaksIffHarmful` | monitoring/core/orderbook.py:73-83 | a message breaks that exactly when it refreshes an entry that crosses a live order |
| `FeedRepair.OwnTouchIsHarmless` | monitoring/core/orderbook.py:73-83 | an order's own execution never does |
| `FeedRepair.RunIsProper` | hft_engine/src/matching/orderbook.h:217-378 | what an engine announces is never resting already nor crosses what rests, and what its messages leave live is its book |
| `FeedRepair.AlwaysSparesIff` | monitoring/core/orderbook.py:100-125 | for every engine's messages, every loss of removals and every run of arrivals and repairs: at no point can a repair evict a live order if and only if no harmful message arrives |
| `FeedRepair.MonitorIsSound` | monitoring/core/orderbook.py:100-125 | over every legal run, if each order is touched only by its own messages, no repair at any point can evict an order that rests in the engine's book |
| `FeedRepair.RefreshedPhantomEvictsLive` | monitoring/core/orderbook.py:73-83 | a legal run in which a recycled reference's execution refreshes a phantom, and repair evicts a live order |
| `FirmSides.GoodKeepsCoupled` | hft-trading-firm/src/data/book_builder.h:26-104 | a good tick keeps the two books' levels equal, their empty entries at the ends of the array, and the cached best exact |
| `FirmSides.TickAgreesIff` | hft-trading-firm/src/data/book_builder.h:26-113 | from such a state a tick is good if and only if no ordinary ticks after it can tell the books apart |
| `FirmSides.BadTickShows` | hft-trading-firm/src/data/book_builder.h:26-113 | after any tick that is not good, a sequence of ordinary ticks makes the two books show different things |
| `FirmBooks.AgreesIff` | hft-trading-firm/src/data/book_builder.h:19-114 | a tick stream is all good if and only if at every point of it, and after any ordinary ticks that may follow, the snapshots are identical |
| `FirmBooks.PlainShowsTop` | hft-trading-firm/src/data/book_builder.h:66-113 | after ordinary ticks only, both snapshots are the two best levels of the tick history, empty sides included |
| `FirmBooks.LevelIsLeft` | hft-trading-firm/src/data/book_builder.h:29-64 | a level that never outgrows 32 bits holds its adds minus its trades, counted from the lowest that this difference has been: a trade of more than there is starts it over at 0 |
| `FirmBooks.LevelIsNet` | hft-trading-firm/src/data/book_builder.h:29-64 | if never more was traded than added, and less than 2^32 in all, it holds the plain difference of the sums |
| `FirmBooks.AddsWrap` | hft-trading-firm/src/data/book_builder.h:29-64 | if nothing was traded, it holds the sum of its adds modulo 2^32 |
| `FirmBooks.OverTradeEmpties` | hft-trading-firm/src/data/book_builder.h:77-104 | a trade of at least what is there leaves nothing, whatever went before |
| `FirmBooks.PlainShowsSums` | hft-trading-firm/src/data/book_builder.h:66-113 | after ordinary ticks that outgrow no level, both snapshots are the best prices at which something is left, and what is left there in those sums |
| `FirmBooks.HotBook.ProcessTick` | hft-trading-firm/src/data/book_builder.h:26-64 | arrays and cached bests are what the whole history of ticks, of any price up to 64 bits, makes of them |
| `FirmBooks.HotBook.NextBidDown` | hft-trading-firm/src/data/book_builder.h:40-44 | the rescan finds the next non-empty bid, or 0 |
| `FirmBooks.HotBook.NextAskUp` | hft-trading-firm/src/data/book_builder.h:57-61 | the rescan finds the next non-empty ask, or the last level |
| `FirmBooks.HotBook.GetSnapshot` | hft-trading-firm/src/data/book_builder.h:66-68 | the cached bests of the history with their levels |
| `FirmBooks.ColdBook.ProcessTick` | hft-trading-firm/src/data/book_builder.h:77-104 | the maps are what the whole history makes of them, prices cut to the 32 bits of the key |
| `FirmBooks.ColdBook.GetSnapshot` | hft-trading-firm/src/data/book_builder.h:107-113 | the first entries of the history's maps, or the empty-side values |
| `FirmBooks.Replay` | hft-trading-firm/src/data/book_builder.h:19-114 | both books fed any stream: their snapshots after every tick, identical after every good prefix |
| `FirmBooks.EmptyAddsPart` | hft-trading-firm/src/data/book_builder.h:39-44 | two empty bid adds and a trade at the higher one: the map shows the lower price, the array shows 0 |
| `FirmBooks.HighBidParts` | hft-trading-firm/src/data/book_builder.h:27 | a first bid add whose 32-bit price is beyond the array is shown by the map and not by the array |
| `FirmBooks.LongBidParts` | hft-trading-firm/src/data/book_builder.h:73-80 | a first bid add at a price of more than 32 bits is shown by the map at the price cut to 32, and not by the array |
| `Seqlock.NextKeepsInv` | hft_engine/src/core/stats_region.h:170-178 | every word access of writer and reader keeps the invariant |
| `Seqlock.CounterRepeatsIff` | monitoring/feeds/stats_reader.py:50-55 | the sampled value shows again exactly after a multiple of 2^31 completed writes |
| `Seqlock.SnapshotIsPublished` | monitoring/feeds/stats_reader.py:47-56 | a returned snapshot is the publication that was current when the attempt began, if fewer than 2^31 writes overlap it |
| `Seqlock.QuietAttemptSucceeds` | monitoring/feeds/stats_reader.py:49-55 | an attempt that no write overlaps returns the latest publication |
| `Seqlock.GivesUpOnlyAtTheEnd` | monitoring/feeds/stats_reader.py:49-56 | in every run a call returns nothing exactly after as many failed attempts as it was allowed, each of which sampled an odd counter or saw it change; one that returns a block had an attempt left |
| `Seqlock.WrapTearsSnapshot` | hft_engine/src/core/stats_region.h:170-178 | with 2^31 overlapping writes a run returns a block that was never published |

## Left out

- Dropped messages: market data, drop copies and acknowledgements are dropped when their queue is full; outputs are compared under the premise that none is. The monitor's model does cover loss on the network.
- Weak memory: atomic steps are sequentially consistent; acquire and release are taken to provide that between one producer and one consumer, and between the statistics writer and its reader.
- Queues inside the slot protocol are atomic FIFOs without a bound; `SpscQueue` proves that of the ring itself, and the gateway's waiting on a full queue is not a step.
- Words.CountTrailingZeros: words are sequences of 64 bits and the builtin is given as a loop over them; the masks are built with the original's shifts and guards.
- SlotInvariants.CancelHitsSendersOrder: connection ids are unbounded, so the wrap of the 32-bit id counter is outside the statement.
- Egress.Gateway.Accept: takes the descriptor and the connection id from the caller, because the kernel and a counter shared with other workers choose them; neither is in use or was reported to before.
- Egress.Gateway.DrainAcks: the per-shard queues are given as what the pops of this drain return; later pushes belong to the next drain.
- FeedBook.Book.Apply: sides are only 'B' and 'S' and times are reals; the empty-list branch of repair_crossed (monitoring/core/orderbook.py:121-122) is shown unreachable and does not appear.
- FeedRepair.AlwaysSparesIff: eviction by age, which can take a live order that has long been quiet, is not among the acts.
- EngineShard.Engine.constructor: wires any number of books; the original holds 256 and wires the quarter that belongs to its shard, which is where its tasks are routed.
- EngineShard.Serve: tasks come as one sequence, the order in which the engine pops them from its workers' queues (`ServedRuns.EveryRunIsServed` shows every such sequence meets its premise); the polling counters and the latency queue are left out.
- FirmBooks.Replay: one instrument at a time; routing by instrument id is an index computation and is left out.
- Seqlock.SnapshotIsPublished: covers the writer-sampled block; per-shard counters and the heartbeat are written outside the lock.
- Sockets, epoll registration, huge pages, thread affinity, time stamps and cycle counters: foreign calls; `read` and `send` appear only through their possible results.
- The gateway's own reject messages, publisher batching, audit-log files, clock anchoring, metrics, the terminal interface, strategies, connectors and tools: they would only add easy members.
