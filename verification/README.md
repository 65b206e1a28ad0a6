# Verification of the trading engine's core

A Dafny model of the core of a small trading system written in Go: the limit order book and the matching
engine that routes to it, the lock-free order state, queue and ring buffer it is built from, the algo engine
that slices parent orders over time, and the FIX codec with the framing of its read loop.
`dafny verify dfyconfig.toml` checks the project.

| file | what it models |
|---|---|
| `ContainerHeap.dfy` | Go's `container/heap` on a slice: sift-up, sift-down, push, pop, removal at an index |
| `Orders.dfy` | orders and trades, `TryFill` and `TryCancel` as one thread runs them |
| `ReferenceBook.dfy` | the price-time matcher a book is meant to be, on two sorted lists |
| `BookShape.dfy` | what ties levels, queues and index of a book together, independent of the heap of objects |
| `OrderBook.dfy` | the order book as a class with two heaps, two price maps, queues and an index, updated in place |
| `MatchingEngine.dfy` | one book per symbol, ids, the ledger of all orders and trades |
| `ReferenceEngine.dfy`, `EngineRun.dfy` | the engine as a function of its commands, and whole runs of the engine against it |
| `EngineRace.dfy` | submissions that take their ids and enter their books in different orders |
| `OrderProtocol.dfy` | `TryFill` and `TryCancel` as atomic steps of any number of threads |
| `LockFreeQueue.dfy` | the queue as atomic steps of any number of threads |
| `RingBuffer.dfy` | the ring buffer as a class, and one producer racing one consumer |
| `Twap.dfy` | validation, slice planning and slicing of a parent order |
| `AlgoEngine.dfy`, `AlgoSchedule.dfy`, `AlgoOverfill.dfy`, `AlgoCancel.dfy` | scheduler, executors, submissions and cancellations as interleaved steps |
| `ExecutionClient.dfy` | the execution report of the direct client |
| `FixMessage.dfy`, `FixFraming.dfy`, `FixDelivery.dfy` | FIX printing, sorting, parsing, checksum, reading, framing, and what a session gets |
| `Arithmetic.dfy`, `Collections.dfy`, `Sums.dfy` | facts about quotients, maps and sums |

## What is proved

**Order book.** `OrderBook.Submit` and `OrderBook.Cancel` refine the reference matcher. The trades, with
makers, prices, quantities and order, are those of a recursive match over the opposite side sorted by price
and arrival, and the book afterwards stands for the reference book afterwards. Every trade is at the resting
order's own price, a market order ends only when it is done or nothing is left, and a limit order only when it
is done or what is left is beyond its limit (`Answered`). Both keep the representation
invariant (heaps are heaps, heap and price map hold the same levels, no empty level, every queued order
rests with something left at its price on its side, the index holds exactly the queued orders) and the
invariant of the reference book (sorted, positive, never crossed). The matching loops terminate because a
level visit exhausts the taker or removes the level. A cancel succeeds exactly for an order that rests, and
reports exactly what was left.

**Whole runs.** `Replay` gives any sequence of submissions and cancels to a new engine: it answers every one as
the reference engine does and ends with the reference engine's books, which are sorted, positive and never
crossed in every run. Of every order nothing is lost: its quantity is what it filled, what of it rests in the
book of its symbol, and what was withdrawn or dropped (`Account`), and a withdrawal is final
(`WithdrawnIsFinal`). `NothingIsLost` states the same when submissions take their ids and enter the books in
different orders.

**Conservation.** The engine's ledger says that every order ever submitted is filled by exactly the trades
that name it; in every symbol, and over all books together, what was bought is what was sold. `NewTrade`
fills its buyer and seller positionally with taker and maker, so a submission's trades name buyer and seller
as such if and only if the submitted order is a buy.

**Order state.** For any number of threads, in every interleaving: bounds, at most one winning cancel, a
cancellation is final, an order marked filled is full, and the filled quantity is the sum of the reported
fills when all calls have returned. Every call is answered by what the order was at one of its own steps
(`AnswerHasGrounds`). With at most one fill in progress (what the book's lock gives) the final
status is exact. With several fillers it is not: a late compare-and-swap can put `Filled` back to
`Partially`. `ManyFillersExactWhen` gives the exact condition: this can happen if and only if two or more of
the fills add up to the order's quantity.

**Queue and ring buffer.** The queue is linearizable, with explicit linearization order, real-time order
and first in, first out. `head` can pass `tail` in some run if and only if there are an enqueue and a dequeue
(`HeadPassesTailExactWhen`). The queue is lock-free: in any run of `n` calls at most `n * (10 * n + 7)` steps
are taken before all have returned, since a retry is always paid for by a call that took effect (`LockFree`),
and a thread that runs alone returns within ten steps (`AloneReturns`). The ring buffer is a bounded
queue for one producer and one consumer across the wrap of its 64-bit counters, and each of its calls returns
after a fixed number of its own accesses (`CallsReturn`); the constructor's loop ends
if and only if the size is at most 2^63.

**Slicing.** For every random stream the children of a parent add up to its quantity, each is its even share
times the drawn factor, and child `i` of `n` is due within a tenth of a slot of where an even spread over the
window has it (`SlicedOnTime`), or the same with the minimum interval where that is longer.

**Algo engine.** No child is sent before it is due: in every run whatever has been taken from the heap was due
at a time the scheduler was woken at (`SentWhenDue`). None is forgotten: each is in one place on its way, was
accepted, or was aborted (`NoChildIsForgotten`). A parent is completed when it is filled and only then
(`CompletedWhenFilled`). A child has at most one token, its order is accepted at most once, and all parents
together have booked what all children have filled. What a report can say of a child's order is what that
order can hold in some interleaving of fills and cancels (`CanReport`), which bounds it by the child's quantity;
every report of the direct client is of that kind. A parent is never filled beyond its quantity if no two
parents' children share an id; `OverfillExactWhen` shows the converse as well: whenever two parents do share
an id, some interleaving overfills one. `SlicedOverfillExactWhen` puts it together with the slicer: of parents
sliced by `GenerateSlices`, one can be overfilled if and only if two of them had ids that agree in their low 32
bits when they were sliced. The id is assigned only after slicing, so this holds of any two parents that come
without one. When a cancellation has come to its end, no executor claims a child of that parent in any run that
follows (`NeverClaimed`), and with no executor at work for it the parent stays cancelled and nothing more of it
is sent or filled (`CancelledForGood`).

**FIX.** Fields survive printing and parsing, the print order does not depend on the map's iteration order,
a lone built message is read back whole, the number in its trailer is the checksum of what comes before
(`TrailerIs`, `ChecksumLaws`), and `FramingExactWhen` gives the exact condition for the read loop:
however the reads split a stream of built messages, the loop's log is exactly them if and only if no
serialized body contains `10=`. The log holds, in order, the fields and the consumed length of every message
taken, and an entry for every buffer dropped for an error. For the fields alone, which are all a session gets,
`DeliveryExactWhen` gives the exact condition: they are those of the messages built, once each and in order, if
and only if every body has no `10=`, or has it in its last line only and carries its own checksum as field 10;
the trailer is dropped in that case. A field with tag 110 breaks framing (`Tag110IsNotClean`).

## Model

| member | source | states |
|---|---|---|
| ContainerHeap.RootIsLeast | engine/orderbook.go:22-48 | the root of a heap has the least key of the whole slice, so `bids[0]` and `asks[0]` are the best levels |
| ContainerHeap.Up | engine/orderbook.go:258 | sift-up restores heap order from a slice that is a heap except above one slot, and permutes it |
| ContainerHeap.Down | engine/orderbook.go:292 | sift-down restores heap order below one slot, or changes nothing and says so |
| ContainerHeap.Push | engine/orderbook.go:258 | `heap.Push` keeps heap order and adds exactly the element |
| ContainerHeap.Remove | engine/orderbook.go:292 | `heap.Remove` at any index returns that element, keeps heap order and removes exactly it |
| ContainerHeap.Pop | algo/engine.go:278 | `heap.Pop` returns a least element, keeps heap order and removes exactly it |
| Orders.Order.TryCancel | model/order.go:92-111 | succeeds just for an active order, which is then cancelled; otherwise nothing changes |
| Orders.Order.TryFill | model/order.go:113-152 | succeeds just for a non-positive quantity or one that fits an order neither cancelled nor rejected; adds exactly it and sets the status by whether the order is full; each error has its own cause |
| ReferenceBook.MatchFollowsPriority | engine/orderbook.go:190-229 | makers are hit in list order: trade `i` names the taker and the `i`-th maker, its symbol, its maker's own price, and for all but the last all the maker has |
| ReferenceBook.MatchKeepsLimit | engine/orderbook.go:139-176 | compared with the limit directly: a market order stops only when it is done or the side is empty; a limit order trades at its limit or better, and what is left on the other side when it is not done is beyond its limit |
| ReferenceBook.SubmitAnswers | engine/orderbook.go:78-97 | the same for a whole submission: makers in order, at their prices, within the limit, and where it ends (`Answered`) |
| ReferenceBook.MatchLeavesTail | engine/orderbook.go:231-239 | what rests afterwards is the untouched tail of the list, its head reduced if the last maker was not exhausted |
| ReferenceBook.MatchIsMaximal | engine/orderbook.go:139-176 | matching stops only when the taker is done, the side is empty or the best price does not cross; no quantity is created or lost |
| ReferenceBook.MatchSplit | engine/orderbook.go:161-166 | matching a side level by level is matching its whole list |
| ReferenceBook.InsertPlace | engine/orderbook.go:253-269 | a remainder rests behind all orders of its price or better and before all others |
| ReferenceBook.SubmitKeepsProper | engine/orderbook.go:156-188 | every submission leaves both sides sorted and positive and every bid below every ask |
| ReferenceBook.CancelKeepsProper | engine/orderbook.go:99-132 | so does every cancel |
| BookShape.ShapeAfterMatch | engine/orderbook.go:225-241 | levels, queues and index stay tied together when the front of a level's queue leaves all three |
| BookShape.ShapeAfterJoin | engine/orderbook.go:246-270 | and when an order joins the back of its level and the index |
| BookShape.ShapeAfterLeave | engine/orderbook.go:114-126 | and when an order leaves its level and the index |
| BookShape.FlattenSwept | engine/orderbook.go:139-148 | sweeping the best level drops a prefix of the side's list |
| BookShape.FlattenJoined | engine/orderbook.go:253-269 | appending to the level of its price inserts an order behind all equal or better prices of the side's list |
| BookShape.FlattenLeft | engine/orderbook.go:272-297 | removing an order from its level removes exactly it from the side's list |
| OrderBooks.OrderBook.constructor | engine/orderbook.go:61-72 | a new book is valid and empty |
| OrderBooks.OrderBook.RootIsBest | engine/orderbook.go:139-141 | the root of a side's heap is the level its price is filed under, with priority over every other price |
| OrderBooks.OrderBook.IndexOfPrice | engine/orderbook.go:290-292 | the search of the heap slice ends at the level filed under that price |
| OrderBooks.OrderBook.CleanupLevel | engine/orderbook.go:281-297 | an empty level leaves map and heap together, a level with orders stays, heap and map keep holding the same levels |
| OrderBooks.OrderBook.FillNext | engine/orderbook.go:194-229 | one pass of the loop: trades the smaller quantity with the front maker at that maker's price and drops the maker from the index just when exhausted |
| OrderBooks.OrderBook.FillLevel | engine/orderbook.go:190-229 | the loop over one level is the reference match over its queue, with every fill accounted for by a trade |
| OrderBooks.OrderBook.DropInactive | engine/orderbook.go:231-239 | rebuilding the queue from active orders drops exactly the exhausted front |
| OrderBooks.OrderBook.SweepLevel | engine/orderbook.go:190-244 | a level visit keeps the book valid, exhausts the taker or removes the level, and books every trade on the index |
| OrderBooks.OrderBook.MatchAgainstLevel | engine/orderbook.go:190-244 | one level visit advances the reference match over the whole side |
| OrderBooks.OrderBook.MatchLoop | engine/orderbook.go:134-176 | the loop of a market or limit order terminates and is the reference match over the opposite side, cut at the limit |
| OrderBooks.OrderBook.FillTaker | engine/orderbook.go:150-181 | the taker's own fill always succeeds and is what the loop matched |
| OrderBooks.OrderBook.LevelFor | engine/orderbook.go:253-259 | the level of a price is found, or opened in map and heap |
| OrderBooks.OrderBook.AddOrderToBook | engine/orderbook.go:246-270 | a resting order joins its level and the index and the book stays valid |
| OrderBooks.OrderBook.MatchMarketOrder | engine/orderbook.go:134-154 | a market order is the reference submission, ends only when done or when nothing is left to trade with, and never rests |
| OrderBooks.OrderBook.MatchLimitOrder | engine/orderbook.go:156-188 | a limit order is the reference submission; its trades name makers and their own prices; a positive remainder rests behind equal or better prices |
| OrderBooks.OrderBook.Submit | engine/orderbook.go:78-97 | trades and new book are those of the reference matcher; the trades are with the best resting orders in order, each at the resting order's price, and end only where `Answered` says; the invariants hold again, every fill is accounted for by the trades, the order's status is that of its fill, every level held is an old or a new one |
| OrderBooks.OrderBook.RemoveOrderFromLevel | engine/orderbook.go:272-279 | removes the first order with that id from the queue and nothing else |
| OrderBooks.OrderBook.IndexedIsQueued | engine/orderbook.go:103-124 | an indexed order is where the source looks for it: in the queue of the level of its side and price |
| OrderBooks.OrderBook.HeldIs | engine/orderbook.go:103-112 | the reference book holds of an order what is left of it if it is indexed, and nothing otherwise |
| OrderBooks.OrderBook.Cancel | engine/orderbook.go:99-132 | succeeds just for a resting order, reports exactly what the reference book holds of it, removes exactly it, brings no levels; otherwise nothing changes |
| OrderBooks.OrderBook.BestOf | engine/orderbook.go:299-315 | the best bid or ask is the first price of the reference list, and is missing just when the side is empty |
| OrderBooks.OrderBook.Depth | engine/orderbook.go:317-340 | each depth entry is what the reference book holds at that price, positive, and no price with anything resting is missing |
| OrderBooks.DepthOfFlat | engine/orderbook.go:321-329 | what a side's list holds at a price is what the queue of that price holds |
| MatchingEngines.BooksApart | engine/matching.go:50-60 | books of different symbols share neither levels nor orders |
| MatchingEngines.BookKept | engine/matching.go:66-67 | a book none of whose objects changed is valid and stands for the same reference book |
| MatchingEngines.TakerTrades | engine/orderbook.go:178-181 | what the trades of a submission move on the taker is their total quantity |
| MatchingEngines.BookedGrows | engine/matching.go:62-81 | a submission carries the ledger of all orders and all trades on |
| MatchingEngines.SideTotalIs | model/order.go:177-189 | what the orders of one side have traded, in one symbol or in all, is what has traded there |
| MatchingEngines.BoughtIsSold | engine/matching.go:62-81 | in every symbol, and over all books, the filled quantities of buy and sell orders agree, and both are the traded quantity |
| MatchingEngines.NamesAre | model/order.go:177-189 | a submission's trades name buyer and seller by their sides if and only if the submitted order is a buy |
| MatchingEngines.MatchingEngine.constructor | engine/matching.go:33-44 | a new engine has no books, orders or trades |
| MatchingEngines.MatchingEngine.GetOrCreateOrderBook | engine/matching.go:50-60 | returns the symbol's book, opening an empty one just when there is none, and changes no other |
| MatchingEngines.MatchingEngine.SubmitOrder | engine/matching.go:62-81 | gives the order the next id and its terms, does in the symbol's book what the reference matcher does, trades at resting orders' prices and ends only where `Answered` says, gives the order the status of its fill, changes no other book, keeps the ledger, in which every trade has its maker's price, and holds only old or new books and levels |
| MatchingEngines.MatchingEngine.CancelOrder | engine/matching.go:83-100 | succeeds just if the order rests in the named symbol's book, reports exactly what that holds of it, changes no other book and brings no levels; otherwise refuses and changes nothing |
| ReferenceEngines.RunKeepsProper | engine/orderbook.go:78-132 | in every run every book is sorted, positive and never crossed |
| ReferenceEngines.RestsAtHome | engine/matching.go:50-100 | in every run an order rests at most once, and only in the book of its symbol |
| ReferenceEngines.Account | engine/orderbook.go:78-270 | in every run an order's quantity is what it traded, what rests of it and what was withdrawn or dropped |
| ReferenceEngines.WithdrawnIsFinal | engine/orderbook.go:99-132 | an order that was withdrawn never rests or trades again, whatever follows |
| EngineRuns.Serve | engine/matching.go:62-100 | a submission or cancel on the engine is one step of the reference engine, with its answer |
| EngineRuns.Replay | engine/matching.go:33-100 | every run of submissions and cancels on a new engine answers and ends as the reference engine, with proper books, every order accounted for, and as much bought as sold in every symbol and overall |
| EngineRaces.StepKeepsInv | engine/matching.go:62-67 | taking an id, entering a book and cancelling each keep books proper and every order accounted for |
| EngineRaces.NothingIsLost | engine/matching.go:62-100 | in every interleaving of id assignments, entries and cancels, books are proper, an order rests at most once and at home, and nothing of it is lost |
| EngineRaces.InTurnIsSequential | engine/matching.go:62-100 | if commands are taken in turn, the steps of that interleaving give the books, trades and ids of the sequential engine |
| OrderProtocol.OwnStep | model/order.go:92-152 | each atomic step changes the filled quantity by what the thread holds, and never leaves bounds or unmarks a cancellation |
| OrderProtocol.StepKeepsInv | model/order.go:92-152 | every step of every thread keeps the invariant; after a cancellation the committed fills are frozen |
| OrderProtocol.ExecKeepsInv | model/order.go:92-152 | over whole runs: the invariant holds and a cancellation and the committed fills stay for good |
| OrderProtocol.ReachableIsSafe | model/order.go:92-152 | in every reachable state 0 <= filled <= quantity, filled is what calls hold, at most one cancel has won, filled status means full; at rest filled is the sum of reported fills |
| OrderProtocol.AnswerHasGrounds | model/order.go:92-152 | in every interleaving a call returns at a step of its own at which the order gave it that answer: a fill is refused only if it did not fit or the order was cancelled, a cancel only if the order was full or cancelled; losing a race alone refuses nothing |
| OrderProtocol.AloneFillIsSequential | model/order.go:113-152 | without interference the steps of a fill do what the sequential method promises |
| OrderProtocol.AloneCancelIsSequential | model/order.go:92-111 | and those of a cancel |
| OrderProtocol.OneFillerIsExact | model/order.go:92-161 | with at most one fill in progress, at rest: filled status exactly when full, a won cancel left something and `CancelQuantity` is all of it |
| OrderProtocol.ExactWithoutSplit | model/order.go:139-147 | if no two fills add up to the quantity, a full order ends up marked filled in every interleaving |
| OrderProtocol.SplitGoesWrong | model/order.go:139-147 | if they do, an interleaving leaves the order full and not marked filled |
| OrderProtocol.ManyFillersExactWhen | model/order.go:113-152 | the final status is exact in all interleavings if and only if no two or more fills add up to the quantity |
| LockFreeQueue.StepKeepsInv | model/lockfree.go:26-57 | every atomic step keeps the invariant of chain, pointers, values, owners, count and log |
| LockFreeQueue.LegalAt | model/lockfree.go:43-57 | every operation in the log got the answer of a FIFO queue at its instant; empty means it was empty then |
| LockFreeQueue.Linearizable | model/lockfree.go:26-57 | in every reachable state the operations that took effect are in one legal order, each once, with the answers their callers get |
| LockFreeQueue.OrderIsRealTime | model/lockfree.go:26-57 | a call that returned before another was invoked is ordered before it |
| LockFreeQueue.PointersAndCount | model/lockfree.go:26-61 | `tail` is the last or second last node, `head` at most one past it, the count is the length up to calls in progress and exact at rest |
| LockFreeQueue.TidyAtRest | model/lockfree.go:26-57 | in every run, with no call in progress, `tail` is the last node and every node up to `head` has been cleared of its value |
| LockFreeQueue.FirstInFirstOut | model/lockfree.go:26-57 | what came out followed by what is there is what went in |
| LockFreeQueue.HeadPassesTailExactWhen | model/lockfree.go:26-57 | some run has `head` ahead of `tail` if and only if the calls include an enqueue and a dequeue |
| LockFreeQueue.StepAdvances | model/lockfree.go:26-57 | every step brings its thread nearer to its return |
| LockFreeQueue.WorkShrinks | model/lockfree.go:26-57 | a step throws other threads back only when its own operation takes effect, and never by more than that is worth |
| LockFreeQueue.LockFree | model/lockfree.go:26-57 | in every run the calls together take a bounded number of steps, and a call that has had that many turns has returned |
| LockFreeQueue.AloneReturns | model/lockfree.go:26-57 | from every reachable state a thread that runs alone returns within ten steps |
| RingBuffers.DoublingEndsExactlyWhen | model/ringbuffer.go:16-20 | the doubling loop reaches the size if and only if it is at most 2^63 |
| RingBuffers.WrapKeepsSlot | model/ringbuffer.go:33-45 | masking a wrapped counter gives the slot of the unwrapped counter |
| RingBuffers.RingBuffer.constructor | model/ringbuffer.go:16-26 | the capacity is the least power of two that holds the size, and the buffer is empty |
| RingBuffers.RingBuffer.Push | model/ringbuffer.go:28-37 | succeeds just when not full and appends; slots that hold no item stay cleared |
| RingBuffers.RingBuffer.Pop | model/ringbuffer.go:39-49 | succeeds just when not empty, removes the oldest and clears its slot |
| RingBuffers.PushHolds | model/ringbuffer.go:32-33 | the slot written holds no live item |
| RingBuffers.PopHolds | model/ringbuffer.go:43-45 | the slot read holds the oldest item, and clearing it loses no other |
| RingBufferRace.ProduceKeepsInv | model/ringbuffer.go:28-37 | every atomic access of the producer keeps the race invariant |
| RingBufferRace.ConsumeKeepsInv | model/ringbuffer.go:39-49 | every atomic access of the consumer keeps it |
| RingBufferRace.RaceIsBoundedQueue | model/ringbuffer.go:28-49 | in every interleaving each call gets the answer of a bounded queue at one instant, the count is its length, `tail` and `head` run ahead by half-finished calls modulo 2^64 |
| RingBufferRace.ClearedAtRest | model/ringbuffer.go:45 | in every run, between calls, every slot that holds no item is cleared |
| RingBufferRace.CallsReturn | model/ringbuffer.go:28-49 | in every run a push that finds room returns after four more accesses of its own and has pushed its item, a pop that finds one after five, and calls that find none return at once |
| RingBufferRace.FirstInFirstOut | model/ringbuffer.go:28-49 | what was popped followed by what is there is what was pushed |
| Twap.EstimateSliceCount | algo/twap.go:171-182 | one slice per whole interval, 100 below 100 of them and 10000 from 10000 on |
| Twap.ValidateIs | algo/twap.go:23-43 | a parent is accepted exactly when it passes all five checks, and otherwise refused for the first it fails |
| Twap.DefaultsAre | algo/engine.go:110-126 | what is given stays; a missing start is now, a missing end 30 seconds a slice or two hours later, a missing slice count one for each whole 30 seconds of the window held within 100 and 10000, a missing perturbation ten per cent |
| Twap.DefaultsAreAccepted | algo/engine.go:110-130 | with the defaults filled in, a parent is accepted exactly for the listed reasons, and two hours become 240 slices |
| Twap.PlanIs | algo/twap.go:53-70 | at most 10000 slices; a minimum interval strictly lowers their number; all slots fit the window unless a single slice was forced |
| Twap.PlanSpreads | algo/twap.go:53-70 | in plain arithmetic: the interval is the window over the number of slices asked for, held within 100 and 10000, rounded down; or, where that is below the minimum interval, it is the minimum interval, and there are as many slices as fit, or one |
| Twap.CutChildOk | algo/twap.go:98-148 | one pass of the slicing loop gives a child with its numbered id, the parent's terms, a time in the window and a bounded quantity, and keeps what is left within bounds |
| Twap.SliceQtyOk | algo/twap.go:87-112 | a slice is at least one, at most what is left and within the bound, and the last one takes all that is left |
| Twap.SlicedQty | algo/twap.go:87-112 | a child gets its even share of the quantity times the drawn factor, which is held at a tenth from below, rounded down, at least one and at most what is left; the last gets all that is left |
| Twap.SlotTimeOk | algo/twap.go:114-131 | times lie in the window and near their slots; the end clamp acts only when a single slice was forced |
| Twap.JitterIs | algo/twap.go:114-123 | a draw below a tenth of the interval is the jitter, one way or the other; none up to a millisecond |
| Twap.SlicedTime | algo/twap.go:125-131 | a child's time is its slot's moved by the draw and kept in the window |
| Twap.GapOk | algo/twap.go:125-131 | any two children are an interval less twice the jitter apart |
| Twap.SlicedOnTime | algo/twap.go:53-131 | child `i` of `n` is within a tenth of a slot of `i` times the window over `n`, up to the rounding of the interval, inside the window, and four fifths of a slot from any other; with a minimum interval the same holds of that |
| Twap.ChildIdsMeet | algo/twap.go:139 | two children share an id exactly when numbers and the low halves of the parents' ids agree |
| Twap.ChildIdIs | algo/twap.go:139 | the upper half of a child's id is the low half of its parent's, the lower half its number from one |
| Twap.GenerateSlices | algo/twap.go:45-169 | fails exactly when refused or with less than one unit a slice; otherwise 1 to the planned number of children, each drawn as the random streams say, quantities adding up to the total, times spread over the window as `SlicedOnTime` says; the final correction never acts |
| AlgoEngine.PushAll | algo/engine.go:149-152 | pushing the children one by one gives a heap with exactly them added |
| AlgoEngine.PopDue | algo/engine.go:272-278 | popping gives the child due first and a heap without it |
| AlgoEngine.ReportWithinOrder | model/order.go:124-130 | no report, whatever fills and cancels reach the order, claims more than its quantity |
| AlgoEngine.FilledAtOnce | algo/engine.go:338-353 | any quantity an order can be filled with at once can be reported, with the status that goes with it |
| AlgoEngine.StepKeepsTokens | algo/engine.go:141-372 | every action of every thread keeps one token per child, the heap order and the sending state of each child |
| AlgoEngine.ExecuteMoves | algo/engine.go:316-372 | an executor's step moves a fill from report to child or from child to parent and changes nothing else booked |
| AlgoEngine.StepKeepsInv | algo/engine.go:104-372 | every action keeps parents, children and pending executors in balance |
| AlgoEngine.SentOnceAndBalanced | algo/engine.go:141-372 | in every run a child has at most one token, is accepted at most once, fills at most its quantity; with no executor at work all parents have booked what all children filled, whatever the ids |
| AlgoEngine.ScanTakesEarliest | algo/engine.go:272-278 | the scheduler takes the child due first |
| AlgoSchedule.ScanTakesDue | algo/engine.go:264-278 | a scan that goes back to waiting leaves only children due later than now; one that takes a child takes one that is due, before which none is, and leaves the others |
| AlgoSchedule.SentWhenDue | algo/engine.go:256-318 | in every run, every child the scheduler has taken, an executor works on or whose order was accepted was due at some time the scheduler was woken at before |
| AlgoSchedule.StepForgetsNone | algo/engine.go:141-372 | no step of any thread loses a child that has not been sent or aborted |
| AlgoSchedule.NoChildIsForgotten | algo/engine.go:141-372 | in every run each child is in exactly one place on its way, or was accepted once, or aborted; with nobody at work the first means pending in the heap |
| AlgoSchedule.CompletedWhenFilled | algo/engine.go:355-371 | in every run a completed parent is filled, and a filled one with no executor about to read its total is completed or cancelled |
| AlgoSchedule.SubmitAdds | algo/engine.go:141-153 | a submission adds a running parent and, for each slice, a pending child with its id, quantity and due time, found in the heap and by its id, and leaves all others |
| AlgoSchedule.ScheduledAlone | algo/engine.go:281-310 | a pending child is aborted if its parent is cancelled, put back with a new time if it is paused, and otherwise handed to an executor for that parent |
| AlgoSchedule.AcceptedIsBooked | algo/engine.go:316-371 | alone, an executor whose order is accepted ends with the report on its child and the fill on the parent, completed just if that fills it |
| AlgoSchedule.FailedGoesBack | algo/engine.go:325-336 | one whose order fails ends with its child pending, at its new time, back in the heap |
| AlgoEngine.NoOverfill | algo/engine.go:286-372 | if no two parents' children share an id no parent exceeds its quantity in any run, with reports bounded only by what orders can hold |
| AlgoCancel.StepKeeps | algo/engine.go:164-200 | every action keeps barred children barred, and a cancellation bars the children it has passed |
| AlgoCancel.CancellationBars | algo/engine.go:164-200 | when a cancellation ends every child of the parent is barred, and the parent is cancelled or was completed meanwhile |
| AlgoCancel.CancellationSparesOthers | algo/engine.go:170-197 | a step of a cancellation changes the status of its own parent and of that parent's children and nothing else |
| AlgoCancel.NeverClaimed | algo/engine.go:281-318 | in every run that follows an executor that tries to claim such a child ends |
| AlgoCancel.CancelledForGood | algo/engine.go:281-372 | with no executor at work for it a cancelled parent stays cancelled and nothing more of it is sent or filled |
| AlgoOverfill.NoCollisionNoOverfill | algo/engine.go:149-152 | without shared ids no run of any prefix of the submissions overfills |
| AlgoOverfill.CollisionOverfills | algo/engine.go:149-152 | with a shared id some run overfills |
| AlgoOverfill.OverfillExactWhen | algo/engine.go:149-152 | a parent can be overfilled if and only if two parents' children share an id |
| AlgoOverfill.SlicesFit | algo/twap.go:87-166 | what slicing gives can be submitted: not empty, no empty slice, adding up to the parent's quantity |
| AlgoOverfill.SlicedOverfillExactWhen | algo/engine.go:141-153 | parents that were sliced can be overfilled if and only if the ids of two of them agreed in their low 32 bits |
| AlgoOverfill.CutBeforeIdOverfills | algo/twap.go:139-140 | any two parents sliced under the same id, as before they have one, can end with one overfilled |
| ExecutionClients.ValueBetween | algo/client.go:51-54 | the traded value lies between lowest and highest price times the quantity |
| ExecutionClients.QuotBetween | algo/client.go:55-57 | the truncated average lies where the prices do |
| ExecutionClients.QuotLeaves | algo/client.go:56 | the average times the quantity is the value but for a remainder smaller than the quantity, towards zero |
| ExecutionClients.OnePriceAverage | algo/client.go:50-57 | at one price the reported average is that price if and only if the value fits in 64 bits |
| ExecutionClients.ReportedFill | algo/client.go:44 | what an order filled is the total of its trades, all at prices it accepts |
| ExecutionClients.ValueLaws | algo/client.go:51-54 | the value of no trades is zero, of one its price times its quantity, of two lists the sum of theirs |
| ExecutionClients.SumValues | algo/client.go:51-54 | the loop's sum is the true value wrapped to 64 bits |
| ExecutionClients.DirectExecutionClient.SendOrder | algo/client.go:29-63 | the report has the new id, the order's terms, the quantity of its trades, which is within the order's, the status that goes with it, and, if the value fits in 64 bits, an average that times the quantity gives the value but for a remainder smaller than the quantity, on the right side of the limit |
| FixMessages.AtoiOfItoa | gateway/fix/message.go:83-122 | a printed tag parses back and contains neither separator |
| FixMessages.AtoiIs | gateway/fix/message.go:122 | digits with or without a sign parse as the number they say if it fits in 64 bits, and nothing else parses |
| FixMessages.SortedIsUnique | gateway/fix/message.go:170-208 | two sorted lists of the same tags are the same list |
| FixMessages.TagOrderIsUnique | gateway/fix/message.go:170-208 | the print order depends on the fields only |
| FixMessages.HeaderComesFirst | gateway/fix/message.go:176-203 | in a sorted list only earlier ones of 8, 9, 35, 49, 56, 34, 52 come before one of these, and only these and smaller tags before any other |
| FixMessages.SwapsIs | gateway/fix/message.go:188-203 | the source's swap rule is strict precedence by header rank, then number |
| FixMessages.SortTags | gateway/fix/message.go:186-205 | the in-place exchange sort sorts and permutes |
| FixMessages.SortedKeys | gateway/fix/message.go:170-208 | whatever order the map is ranged over in, the keys come out sorted and complete |
| FixMessages.SplitIs | gateway/fix/message.go:113 | the parts hold no separator and, joined by it, give the input |
| FixMessages.ParsePartIs | gateway/fix/message.go:114-128 | a part with a number before its first equals sign sets that field to all that follows; any other is skipped |
| FixMessages.ParseFIXMessage | gateway/fix/message.go:110-131 | the parser's loop folds the parts from the left, later fields overwriting earlier ones and malformed parts skipped |
| FixMessages.ParseOfPrint | gateway/fix/message.go:77-131 | parsing a serialized message gives back exactly its fields |
| FixMessages.CalcChecksum | gateway/fix/message.go:162-168 | the loop computes `Checksum`, which `ChecksumLaws` determines |
| FixMessages.ChecksumLaws | gateway/fix/message.go:162-168 | the checksum of nothing is zero, of one byte that byte, of two texts the sum of theirs modulo 256 |
| FixMessages.Pad3Is | gateway/fix/message.go:104 | the checksum is printed in three digits that read back as its value |
| FixMessages.FIXMessage.Set | gateway/fix/message.go:37-39 | sets one field |
| FixMessages.FIXMessage.Serialize | gateway/fix/message.go:77-90 | prints every field once, in tag order, whatever order the map is ranged over in |
| FixMessages.PrintedOnce | gateway/fix/message.go:77-90 | two messages serialize to the same bytes if and only if their fields are the same |
| FixMessages.FIXMessage.Build | gateway/fix/message.go:92-108 | sets fields 8, 49 and 52 to `FIX.4.4`, the id given and the time, and returns the printed fields with their trailer |
| FixMessages.TrailerIs | gateway/fix/message.go:97-107 | a built message is the printed fields, `10=`, three digits whose number is the checksum of all bytes before the `10=`, and a separator |
| FixMessages.StartsWithBeginString | gateway/fix/message.go:93 | a built message starts with the bytes of `8=FIX.4.4` and a separator |
| FixMessages.LastTen | gateway/fix/message.go:136-146 | the last `10=` of a built message is its trailer, whatever the body holds |
| FixMessages.TrailerEnds | gateway/fix/message.go:136-146 | the trailer ends with the message |
| FixMessages.ReadIs | gateway/fix/message.go:133-160 | on any buffer: nothing without a separator after the last `10=`, an error without `8=` before it, otherwise the fields between the first `8=` and that separator, consumed through it |
| FixMessages.ReadOfBuilt | gateway/fix/message.go:92-160 | whatever `Build` returns is, alone in a buffer, consumed whole and gives the stamped fields plus, as tag 10, the three digits of its trailer (`TrailerIs`) |
| FixFraming.TakeMessages | gateway/fix/gateway.go:151-162 | the inner loop terminates and takes what repeated reading of the buffer gives |
| FixFraming.HandleConnection | gateway/fix/gateway.go:126-162 | the read loop takes, over all reads, what draining after every line gives |
| FixFraming.ReadInBody | gateway/fix/message.go:133-160 | a buffer of whole body lines gives nothing without `10=`, and is cut short with it |
| FixFraming.LineStops | gateway/fix/gateway.go:134-149 | a read line never goes past the message that is coming in |
| FixFraming.FramingFrom | gateway/fix/gateway.go:126-162 | from any point of a stream the loop yields the messages to come exactly when their bodies are clean |
| FixFraming.FramingExactWhen | gateway/fix/gateway.go:126-162 | however reads split the stream, the loop's log is exactly the built messages, once, in order, whole, with no error and nothing left over, if and only if no body contains `10=` |
| FixDelivery.EarlyRead | gateway/fix/message.go:133-160 | the lines read so far are taken as a message as soon as one has `10=` |
| FixDelivery.EarlyIsWanted | gateway/fix/message.go:133-160 | what is taken early has the right fields if and only if it is the whole body and carries its own checksum |
| FixDelivery.TrailerDropped | gateway/fix/gateway.go:151-162 | a checksum field left alone is dropped |
| FixDelivery.DeliveryExactWhen | gateway/fix/gateway.go:126-162 | however reads split the stream, a session gets exactly the fields of the built messages, once and in order, if and only if every body is without `10=` or has it in its last line only with its own checksum as field 10 |
| FixFraming.Tag110IsNotClean | gateway/fix/message.go:136 | a field with tag 110 puts `10=` into the body |

## Left out

- Trade ids, timestamps and the sender names copied into trades; order timestamps and client ids.
- Channels and their drop behaviour, logging, Redis, HTTP, TCP and the FIX session handlers.
- The push into the ring buffer inside `SubmitOrder`: nothing reads what it holds. Several producers may make that push at once, which the ring buffer does not support; only one producer and one consumer are modelled.
- The two sides' duplicated loops of the order book are one method with a side parameter, and so are the loops of market and limit orders, which differ in the check of the limit only.
- An order is created inside `SubmitOrder` with its id, instead of getting it assigned.
- Calls into a book are whole steps, as the book's lock makes them. The engine's class takes the id and enters the book in one step; `EngineRaces` takes them apart, and states conservation per order there, without the totals of the two sides.
- Skipping makers that are inactive, empty or refuse a fill (`engine/orderbook.go:197-218`): these branches are kept and proved dead, because nothing but the book fills or cancels a resting order under its lock.
- 64-bit wrap of order ids, quantities and prices in the book; the filled quantity of an order never leaves the range of its quantity.
- Weak memory: atomics are sequentially consistent, and the plain accesses to queue values and ring slots happen in program order.
- Nodes of the queue are never reused while a thread holds them, as garbage collection guarantees.
- Rounding of floating-point factors in the slicer, and the conversion of products beyond 64 bits; factors are real numbers.
- A nil parent in `Validate`, and `Name`; the engine dereferences the parent before it validates it.
- The times that postponed and failed children get are arbitrary, as the clock is; the second and five seconds added to it are not modelled.
- `Paused` parents are modelled where the scheduler puts their children back, although nothing sets that status.
- The map read outside the lock in `processDueChildren` and the two map lookups that follow each other there are one step.
- `GetParent`, `ListParents`, progress callbacks and the cancel request sent to the exchange for a sent child.
- `executeChild` can overwrite a cancelled child or parent with a later status while it is at work; that these statuses are final is claimed only once no executor is.
- The typed getters of FIX messages, `ParseSide`, the message constructors and sessions; what the gateway does with a message once it has been taken from the buffer.
- Twap.GenerateSlices: the 64-bit overflow of `float64` products that exceed an `int64` is not modelled.
- RingBuffers.RingBuffer.constructor: takes sizes up to 2^63 only, since the loop does not end for larger ones.
