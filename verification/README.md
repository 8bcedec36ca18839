# Market-data pipeline: a Dafny model

The program modelled here reads market-data events from several files, merges them by receive
time, and keeps a limit order book per instrument. This directory holds a Dafny 4.11 model of
its hardest parts and proofs about them. `dafny verify dfyconfig.toml` covers the whole
project.

## What is modelled

**The limit order book** (`Levels`, `LevelTree`, `AvlShape`, `PriceLevelTree`, `BookIndex`,
`LevelList`, `LimitOrderBook`). `PriceLevel` and `OrderEntry` are heap objects with the source's
fields and no others. The AVL insert, delete and rebalancing walk run on parent pointers and are
proved against functions on tree shapes (a tree, and a zipper for the path to the root);
what those functions mean (order of the node objects, balance, exact heights) is proved beside
them. The book class keeps the id map, two price maps, two trees with cached best pointers and a
linked list per level; its ghost fields say which objects those are and which reference book
they stand for. The reference book (`BookSpec`) is the sequence of live orders in the order in
which they last joined a level. `Apply` keeps every index consistent and turns the book into
`BookSpec.Apply` of it; the queries are proved against recomputation from the reference book.
`BookOutcome` tells, by the event's fields alone, what every event makes of the order it names, and
`TimePriority` proves the queueing rules.

**The simpler books** (`MapBook`, `BookAgreement`, `BookBehaviour`, `BookDriver`). One class models
the map book and, with `replaceLive` false, the Abseil book. Two books agree when every query gets
the same answer on both. An event can be followed by a map book if it meets a condition on the event
and the live orders, which a caller could check beforehand. After every prefix of a stream the books
agree, and go on agreeing over any further events that can be followed, exactly when every event of
the stream can be followed. Agreement at one moment alone is weaker: an order of size 0 looks
the same in both books until later events part them (`BookBehaviour.QuietDeparture`).

**The ring buffer** (`Masks`, `LockFreeQueue`, `RingTheorems`, `RingLosses`). One step is one access
to shared memory. Acquire loads may return any value published since the thread's last view. A load
of `closed_` may miss the store, but not once the thread has read or made it, nor once the producer
has read a `tail_` that the consumer stored after reading it. A head load that follows a successful
test of `closed_` is at least as new as what the closing thread had seen. Indices are the masked
64-bit words of the source; unbounded counters stand beside them as history. The buffer is read and written in one memory,
which the proofs that no slot is written while it may be read justify.

**The mergers** (`StableMerge`, `Interleaving`, `HierarchyMerger`, `MergerTheorems`,
`FlatMerger`). The merging threads are a tree of nodes with a program counter and registers each; a
step is one queue operation of one thread, and a schedule is any sequence of enabled steps. Queues
are bounded by any positive capacity, or unbounded. The flat merger is a method over arrays with
a heap of keys, of which any earliest one may be on top.

**The routers** (`SimpleRouter`, `ShardedRouter`). A book is represented by the events applied to it,
so that what is proved of the routing holds for every book type. The sharded router is a state
machine: the calling thread pushes events and promises, waits and closes; each worker pops an item
and visits it in two steps.

**The native parser** (`Calendar`, `IsoTimestamp`, `JsonSkip`, `LineParser`, `LineOrder`,
`LineSpaces`, `LineFile`, `LineRoundTrip`). The closed-form day count is compared with counting, the
skipper with the grammar, and the line parser with what the members of the line mean; writing an event
and parsing the line gives the event back, and a file gives the events of its good lines.

Where the code and its comments differ, the model follows the code:

- `src/common/LockFreeQueue.hpp:72-73` requires a power of two. A capacity of 1 is one, and such a
  ring never has room (`RingTheorems.CapacityOneStuck`).
- `src/common/LockFreeQueue.hpp:180-185` re-reads `head_` so that no item is lost before `false` is
  returned. This is so when the producer is the only closer (`RingTheorems.ReceivesAll`). Once another
  thread has closed, an item can be lost as long as the producer may still publish, which it may until
  its tests of `closed_` can no longer miss the store; `RingLosses.LosesExactly` says of every
  reachable state whether a loss can still come, and `RingTheorems.OtherCloserLoses` is a concrete run.
- `src/ingestion/JsonNativeDataParser.cpp:98-99` takes nine fraction digits for granted. After eight
  digits and `Z` the result is 42 ns too late (`IsoTimestamp.EightDigitsThenZ`).
- `src/ingestion/JsonNativeDataParser.cpp:165` multiplies the whole seconds before it adds the
  fraction. The product leaves 64 bits for the instants of 1677-09-21T00:12:43 whose sum would still
  fit (`IsoTimestamp.FitsInt64`, `IsoTimestamp.ComputesInInt64`).

## Model

| member | source | states |
|---|---|---|
| AvlShape.FixOneContents | src/order_book/PriceLevel.cpp:54-81 | rotations and the double rotations keep the node objects and their order |
| AvlShape.RebalanceContents | src/order_book/PriceLevel.cpp:83-107 | the whole walk to the root keeps the node objects and their in-order sequence |
| AvlShape.RebalanceBalanced | src/order_book/PriceLevel.cpp:83-107 | if a balanced tree lost or gained one level of height in one subtree, the walk gives back a balanced tree |
| AvlShape.InsertedCorrect | src/order_book/PriceLevel.cpp:113-147 | inserting a fresh price keeps balance and strict price order; the in-order sequence is the old one with exactly the new node added at one place |
| AvlShape.RemovedCorrect | src/order_book/PriceLevel.cpp:149-231 | removing any node of any valid tree keeps balance and strict price order; the in-order sequence of objects is the old one without exactly that node |
| AvlShape.BalancedSize | src/order_book/PriceLevel.cpp:54-81 | a balanced tree of height h has at least Fib(h+2)-1 nodes |
| AvlShape.PathLogarithmic | src/order_book/PriceLevel.cpp:83-107 | a path of length d to any place of a balanced tree of m nodes has 2^(d/2) <= m + 1 |
| AvlShape.DescentLogarithmic | src/order_book/PriceLevel.cpp:113-147 | so the search for where a price belongs, and the walk back up from there, take at most 2 log2(m + 1) + 1 steps |
| PriceLevelTree.RotateRightAt | src/order_book/PriceLevel.cpp:25-37 | the pointer writes of a right rotation, with heights, realise the rotation of the shape and touch nothing else |
| PriceLevelTree.RotateLeftAt | src/order_book/PriceLevel.cpp:39-51 | the same for the left rotation |
| PriceLevelTree.RebalanceUp | src/order_book/PriceLevel.cpp:83-107 | the loop over parent pointers ends at the root of the rebalanced shape, with parent links and stored heights exact everywhere |
| PriceLevelTree.AvlInsert | src/order_book/PriceLevel.cpp:113-147 | returns the root of a tree whose links and heights are those of the insertion into the shape; only links of the tree's nodes change |
| PriceLevelTree.SwapWithSuccessor | src/order_book/PriceLevel.cpp:153-206 | relinking the in-order successor into the node's place is right for a successor that is the right child and for one further down |
| PriceLevelTree.AvlRemove | src/order_book/PriceLevel.cpp:149-231 | returns the root of a tree whose links and heights are those of the removal from the shape, and leaves the removed node fully detached with height 1 |
| PriceLevelTree.InorderSuccessor | src/order_book/LimitOrderBook.cpp:91-103 | from the k-th node in order, climbing or descending parent pointers ends at the (k+1)-th, or at null after the last |
| PriceLevelTree.InorderPredecessor | src/order_book/LimitOrderBook.cpp:105-117 | from the k-th node in order, ends at the (k-1)-th, or at null before the first |
| BookIndex.LevelInserted | src/order_book/LimitOrderBook.cpp:281-298 | after a level for a new price, the tree, the price map and the best pointer of the side agree again |
| BookIndex.LevelRemoved | src/order_book/LimitOrderBook.cpp:217-228 | after removing a level they agree again, the best being the extreme of the new tree |
| LevelList.UnlinkOrder | src/order_book/LimitOrderBook.cpp:230-241 | unlinking the i-th entry of a doubly linked list gives the list without exactly that entry, links and ends included |
| LevelList.TakeOut | src/order_book/LimitOrderBook.cpp:243-255 | count, total and list of the level are those of its orders without the one taken out |
| LevelList.PutBack | src/order_book/LimitOrderBook.cpp:304-324 | count, total and list of the level are those of its orders with the new one last |
| LevelList.TotalFits | src/order_book/LimitOrderBook.cpp:308-324 | a level's total quantity stays below 2^63 for fewer than 2^31 orders |
| LimitBook.LimitOrderBook.constructor | src/order_book/LimitOrderBook.hpp:44-51 | the empty book satisfies the invariant |
| LimitBook.LimitOrderBook.AddOrder | src/order_book/LimitOrderBook.cpp:257-325 | keeps every index consistent and performs the reference book's add, replacing a live order with the same id |
| LimitBook.LimitOrderBook.CancelOrder | src/order_book/LimitOrderBook.cpp:327-350 | the same for a cancellation, also when the remaining size exceeds the stored one |
| LimitBook.LimitOrderBook.ModifyOrder | src/order_book/LimitOrderBook.cpp:352-406 | the same for modify-as-add, moves, in-place changes and changes to zero |
| LimitBook.LimitOrderBook.Apply | src/order_book/LimitOrderBook.cpp:128-152 | any event, flagged ones included, keeps the invariant over all indices and turns the book into the reference book after that event |
| LimitBook.LimitOrderBook.BestPrice | src/order_book/LimitOrderBook.cpp:154-161 | the cached best is the best price among the live orders of the side |
| LimitBook.LimitOrderBook.VolumeAt | src/order_book/LimitOrderBook.cpp:163-171 | the stored total is the sum of the live orders' quantities at the price |
| LimitBook.LimitOrderBook.Empty | src/order_book/LimitOrderBook.cpp:173-184 | true exactly when the side, or the whole book, has no live order |
| LimitBook.LimitOrderBook.SideLevels | src/order_book/LimitOrderBook.cpp:186-203 | the walk from the best pointer lists every level of the side once, in strictly worsening price order, with its volume |
| BookSpec.RunWellFormed | src/order_book/LimitOrderBook.cpp:128-152 | after any stream, ids are unique and every live order has a side and a price |
| BookOutcome.FlaggedUntouched | src/order_book/LimitOrderBook.cpp:51-54 | an event with flag 4 or flag 8 leaves the book as it is, whatever else it says |
| BookOutcome.UnknownOutcome | src/order_book/LimitOrderBook.cpp:257-375 | for an id that is not live, an add or a modification with side and price puts the order last with the event's side, price, size and time, a clear empties the book, and nothing else changes it |
| BookOutcome.KnownOutcome | src/order_book/LimitOrderBook.cpp:257-406 | for a live order, each action and each combination of size, side and price leaves exactly the stated book: resized in place, taken out, or taken out and put last |
| BookOutcome.ModifyToNothing | src/order_book/LimitOrderBook.cpp:376-385 | a modification of size 0 that keeps side and price takes the order out |
| BookOutcome.BestMeans | src/order_book/LimitOrderBook.cpp:154-161 | the best bid is the highest price bid and the best ask the lowest price asked, none if there is no order |
| TimePriority.JoinGoesToBack | src/order_book/LimitOrderBook.cpp:257-325 | an add, a duplicate add or a modify with a new side or price puts the order last |
| TimePriority.KeepsPlace | src/order_book/LimitOrderBook.cpp:327-406 | a partial cancel or a non-zero modify at the same side and price leaves every order in its place |
| TimePriority.OthersStay | src/order_book/LimitOrderBook.cpp:128-152 | after any event but an unflagged clear, the orders it does not name are the same, unchanged and in the same order; after a clear there are none |
| TimePriority.OrderKept | src/order_book/LimitOrderBook.cpp:128-152 | two orders that an event does not name and that are live after it were live before it, and the one ahead is the one that was ahead |
| TimePriority.LevelInJoinOrder | src/order_book/LimitOrderBook.cpp:257-406 | after any stream, each level's orders stand in the order of the events that last sent them to the back |
| MapBook.MapOrderBook.Apply | src/order_book/MapOrderBook.cpp:36-116 | the in-place updates of bids, asks and index are the state step, with and without replacement of a live order |
| MapBook.CancelOutcome | src/order_book/MapOrderBook.cpp:57-76 | whatever the maps hold, a cancellation of a known order stores the new size or drops the record, and takes the difference off the order's level, erasing it when nothing would remain; a raise changes no level |
| MapBook.MapOrderBook.SideLevels | src/order_book/MapOrderBook.cpp:155-170 | lists each price of the map once, best first, with its total |
| BookBehaviour.EventExact | src/order_book/MapOrderBook.cpp:36-116 | from books in step, one event leads to books that agree now and after any further events that can be followed, if and only if the event can be followed: unflagged adds and modifications carry a size, a cancel never raises one, a flagged event repeats what is held, and without replacement no add reuses a live id |
| BookBehaviour.InStepExact | src/order_book/AbseilOrderBook.cpp:35-98 | for both books and every event, the same condition decides whether orders, sizes and levels stay in step |
| BookBehaviour.StreamExact | src/order_book/MapOrderBook.cpp:36-116 | a map or Abseil book agrees with the limit book after every prefix of a stream, and over whatever it may follow from there, if and only if it can follow every event of the stream |
| BookBehaviour.QuietDeparture | src/order_book/MapOrderBook.cpp:36-53 | an unflagged add of size 0 leaves books that agree at once but not over all events that can be followed |
| BookAgreement.ShowsIsAnswers | src/order_book/MapOrderBook.cpp:118-170 | holding the same levels with the same volumes is getting the same best price, volumes, emptiness and level lists on both sides |
| BookAgreement.SameBest | src/order_book/MapOrderBook.cpp:118-125 | books with the same levels have the same best price |
| BookAgreement.SameVolume | src/order_book/MapOrderBook.cpp:127-140 | books with the same levels show the same volume at every price |
| BookAgreement.SameEmptiness | src/order_book/MapOrderBook.cpp:142-153 | books with the same levels are empty on the same sides |
| BookAgreement.BestUnique | src/order_book/LimitOrderBook.cpp:154-161 | a side has only one correct best price |
| BookAgreement.SameLevels | src/order_book/MapOrderBook.cpp:155-170 | books with the same levels and volumes list the same levels |
| BookAgreement.LevelListUnique | src/order_book/LimitOrderBook.cpp:186-203 | a side has only one correct level list, so equal meaning is equal output |
| BookDriver.RunBooks | bench/OrderBookBench.cpp:63-75 | the two book objects, given a whole stream, end as the reference book and as the map state of that stream |
| BookDriver.RunAndAsk | bench/OrderBookBench.cpp:63-75 | run over the same events, the limit book answers as the reference book does, and the map book answers the same on every stream it can follow |
| Masks.WrapMask | src/common/LockFreeQueue.hpp:140-142 | masking a value that wrapped at 2^64 gives the remainder of the unwrapped value, for any sign |
| LockFreeQueue.FreeSlotsExact | src/common/LockFreeQueue.hpp:140-142 | in every reachable state the free-slot expression is capacity - 1 minus the occupancy the producer knows of |
| LockFreeQueue.SizeExact | src/common/LockFreeQueue.hpp:223-237 | on one snapshot of the indices, size is the number of unread items, and the indices are equal exactly when there is none |
| LockFreeQueue.StepKeeps | src/common/LockFreeQueue.hpp:93-211 | every step of producer, consumer or closer keeps tailView <= tail <= headView <= head < tailView + capacity and the contents of the slots |
| RingTheorems.CallsArePublished | src/common/LockFreeQueue.hpp:93-155 | in every run, the items of all calls that were let in, less those of calls that find the ring closed while waiting for room, are what is published, then the call in progress |
| RingTheorems.Conservation | src/common/LockFreeQueue.hpp:93-200 | in every run, what the calls were given is what was delivered, the item in hand, the ring contents and the call in progress, in this order; occupancy stays below the capacity |
| RingTheorems.NoOverwrite | src/common/LockFreeQueue.hpp:116-151 | a slot being written holds no unread item, is not the slot being read, and its last item's removal has been seen by the producer |
| RingTheorems.PopFalse | src/common/LockFreeQueue.hpp:176-186 | false is answered only when closed, with every item the closer knew of delivered, and everything published if the producer was the only closer |
| RingTheorems.ReceivesAll | src/common/LockFreeQueue.hpp:176-211 | with the producer as closer, a consumer that loops until false has received exactly what the push and push_batch calls were given, then and at any later time |
| RingLosses.LosesExactly | src/common/LockFreeQueue.hpp:176-211 | in any reachable state with at least two slots, the consumer can still answer false before an item, if and only if another thread closed, and the producer is past its tests of `closed_` or may still miss the store, or a view from before its last publication is open to the consumer |
| RingLosses.PublishesAfterFalse | src/common/LockFreeQueue.hpp:153-211 | from any such state in which the producer may still publish, there is a run on which false is answered with everything delivered and an item is published afterwards and not delivered |
| RingTheorems.OtherCloserLoses | src/common/LockFreeQueue.hpp:205-211 | a concrete run with fresh loads in which another closer makes the consumer stop before an item that is published |
| RingTheorems.RefinesQueue | src/common/LockFreeQueue.hpp:93-200 | in every interleaving, publishing a batch adds its items to the ring's contents as single pushes would, a tail store takes the oldest item, and no other step changes the contents |
| RingTheorems.BatchIsSingles | src/common/LockFreeQueue.hpp:127-155 | a batch that finds room leaves the ring as its items pushed singly would, across the wrap-around |
| RingTheorems.BatchVisibleAtOnce | src/common/LockFreeQueue.hpp:153-154 | no view of the consumer ever lies inside a published batch |
| RingTheorems.NeverBothStuck | src/common/LockFreeQueue.hpp:105-148 | with at least two slots, producer and consumer with fresh views are never both waiting |
| RingTheorems.CapacityOneStuck | src/common/LockFreeQueue.hpp:71-75 | with one slot nothing is ever pushed |
| StableMerge.StableMergeUnique | src/ingestion/HierarchyMerger.hpp:103-140 | there is at most one merge ordered by (receive time, file index, position) |
| StableMerge.MergeAtTime | src/ingestion/HierarchyMerger.hpp:112-126 | within one instant, the first input's events come before the second's |
| HierarchyMerger.StepKeeps | src/ingestion/HierarchyMerger.hpp:94-151 | every queue operation of any thread keeps the sequence the tree still has to deliver and uses up work |
| MergerTheorems.RunKeeps | src/ingestion/HierarchyMerger.hpp:31-92 | in every run, received events followed by the pending ones are the same sequence at every moment |
| MergerTheorems.Terminates | src/ingestion/HierarchyMerger.hpp:31-92 | no schedule is longer than a bound read off the first state |
| MergerTheorems.DeadlockFree | src/ingestion/HierarchyMerger.hpp:31-92 | a run that cannot go on has closed its output and delivered everything, for any queue capacity |
| MergerTheorems.QueuesBounded | src/ingestion/HierarchyMerger.hpp:94-151 | with bounded queues, no run fills any queue beyond its bound |
| MergerTheorems.NeverTouchesClosed | src/ingestion/HierarchyMerger.hpp:65-83 | no thread pushes to a closed queue |
| MergerTheorems.PairRound | src/ingestion/HierarchyMerger.hpp:48-72 | one round of pairing halves the nodes, moves a leftover up, and keeps the files in order |
| MergerTheorems.BuildTree | src/ingestion/HierarchyMerger.hpp:31-88 | for any number of files the tree of workers has the files as leaves in file order; without files the output is just closed |
| MergerTheorems.DeliversEverything | src/ingestion/HierarchyMerger.hpp:103-151 | for any files, sorted or not, the output is an interleaving that keeps each file whole and in order |
| MergerTheorems.TreeIsStableMerge | src/ingestion/HierarchyMerger.hpp:103-140 | for sorted files any tree delivers the stable merge |
| MergerTheorems.ShapeAndScheduleDoNotMatter | src/ingestion/HierarchyMerger.hpp:31-151 | two trees over the same sorted files deliver the same sequence under any schedules and queue capacities |
| FlatMerger.MergeFiles | src/ingestion/FlatMerger.hpp:44-75 | with one key per file in the heap and any choice among earliest keys, the output is an interleaving of the files, and sorted if they are |
| FlatMerger.RefillKeeps | src/ingestion/FlatMerger.hpp:64-74 | popping a key and refilling its file keeps exactly one key per file with an undelivered buffered event |
| FlatMerger.MergersAgree | src/ingestion/FlatMerger.hpp:44-75 | on sorted files both mergers show the same times position by position and the same multiset of events, in all and at every instant |
| SimpleRouter.SimpleOrderBookRouter.Apply | src/order_book/SimpleOrderBookRouter.hpp:36-51 | the updates of cache and books are one routing step, with the zero that a lookup of an unknown id leaves behind |
| SimpleRouter.BookZero | src/order_book/SimpleOrderBookRouter.hpp:36-51 | book 0 receives exactly the events without an order id, in order |
| SimpleRouter.BookIsOwned | src/order_book/SimpleOrderBookRouter.hpp:36-51 | each non-zero instrument's book receives exactly the events of the orders whose latest named instrument it is |
| ShardedRouter.CachesAgree | src/order_book/ShardedOrderBookRouter.hpp:118-146 | the cache of an order's shard resolves it to the instrument the dispatcher's cache does |
| ShardedRouter.ShardBook | src/order_book/ShardedOrderBookRouter.hpp:118-146 | the events dispatched to an instrument's shard contain its orders' events, all and in order |
| ShardedRouter.OtherShards | src/order_book/ShardedOrderBookRouter.hpp:118-146 | no other shard ever applies an event to that instrument |
| ShardedRouter.StepKeeps | src/order_book/ShardedOrderBookRouter.hpp:66-146 | every step of caller or worker keeps: applied, in hand and queued events of a shard are its share of the stream; a promise is last in line until it is set |
| ShardedRouter.ShardedRefinesSimple | src/order_book/ShardedOrderBookRouter.hpp:66-116 | under every schedule, when sync_all or close returns, each non-zero instrument's book is the one the simple router builds from the same events |
| ShardedRouter.BookZeroDivided | src/order_book/ShardedOrderBookRouter.hpp:118-146 | at the same moments, book 0 of shard s has, in order, the events without an order id whose instrument leaves the remainder s |
| ShardedRouter.CallReturns | src/order_book/ShardedOrderBookRouter.hpp:66-116 | inside sync_all or close some thread can always move, and every move shortens what is left |
| ShardedRouter.AcceptedUntilClosed | src/order_book/ShardedOrderBookRouter.hpp:118-146 | before close every event is accepted, afterwards none |
| Calendar.CivilIsCount | src/ingestion/JsonNativeDataParser.cpp:138-145 | for every valid date from year 0 the closed form is the number of days counted from 1970-01-01 |
| Calendar.NextDayLaw | src/ingestion/JsonNativeDataParser.cpp:138-145 | the next day has the next number, across month ends, leap days and year ends |
| IsoTimestamp.ParseIso8601Nanos | src/ingestion/JsonNativeDataParser.cpp:116-166 | the parser, loop included, computes the parsing function, with an error for fewer than 19 characters |
| IsoTimestamp.Fallback | src/ingestion/JsonNativeDataParser.cpp:155-163 | the fraction loop reads the run of at most nine digits and scales it |
| IsoTimestamp.FractionsExact | src/ingestion/JsonNativeDataParser.cpp:98-111 | on any text of at least 29 characters, the straight-line fraction exceeds the loop's by the weight of the characters behind the leading digits, so they are equal if and only if that weight is 0 |
| IsoTimestamp.FractionsAgree | src/ingestion/JsonNativeDataParser.cpp:100-111 | after eight digits, the straight-line fraction equals the loop's if and only if the ninth character is a digit |
| IsoTimestamp.EightDigitsThenZ | src/ingestion/JsonNativeDataParser.cpp:150-151 | eight digits and Z come out 42 ns late |
| IsoTimestamp.AnyDecimals | src/ingestion/JsonNativeDataParser.cpp:116-166 | any civil time of the years 0 to 9999, written with 0 to 9 decimals and any zone behind them, parses to the instant found by counting days, plus the weight of the zone's characters that stand where the nine-character fraction expects digits |
| IsoTimestamp.FewDecimals | src/ingestion/JsonNativeDataParser.cpp:152-164 | with up to seven decimals, or none, and a Z it is the instant itself |
| IsoTimestamp.EightDecimals | src/ingestion/JsonNativeDataParser.cpp:150-151 | with eight decimals and a Z it is the instant 42 ns later |
| IsoTimestamp.RoundTrip | src/ingestion/JsonNativeDataParser.cpp:116-166 | formatting a time with nine decimals per RFC 3339 and parsing it gives the instant found by counting days |
| IsoTimestamp.StrictlyMonotone | src/ingestion/JsonNativeDataParser.cpp:147-165 | a later civil time parses to a strictly greater number |
| IsoTimestamp.FitsInt64 | src/ingestion/JsonNativeDataParser.cpp:147-165 | an instant fits a signed 64-bit word if and only if it is not before 1677-09-21T00:12:43.145224192 and not after 2262-04-11T23:47:16.854775807 |
| IsoTimestamp.ComputesInInt64 | src/ingestion/JsonNativeDataParser.cpp:147-165 | the products and the sum of the code stay in 64 bits if and only if the time is not before 1677-09-21T00:12:44 and not after that last instant |
| JsonSkip.SkipVal | src/ingestion/JsonNativeDataParser.cpp:31-72 | the skipping loops compute the skipping function |
| JsonSkip.ValueNeutral | src/ingestion/JsonNativeDataParser.cpp:45-66 | inside a bracket, scanning any rendered value leaves the depth as it was |
| JsonSkip.SkipsOneValue | src/ingestion/JsonNativeDataParser.cpp:31-72 | exactly one value of the grammar is skipped, whatever its kind and nesting |
| LineParser.ParseUnsigned | src/ingestion/JsonNativeDataParser.cpp:74-89 | the digit loop reads the run of digits as a word of the given width |
| LineParser.ParseSigned | src/ingestion/JsonNativeDataParser.cpp:91-96 | a sign and a run of digits are read as a signed 32-bit word |
| LineParser.ParsePrice | src/ingestion/JsonNativeDataParser.cpp:343-366 | the two accumulating loops and the padding loop compute the price of a text |
| LineParser.ParseValue | src/ingestion/JsonNativeDataParser.cpp:200-461 | the value parsers, skipping included, compute the reading function of each kind of member, nested header included |
| LineParser.ParseMembers | src/ingestion/JsonNativeDataParser.cpp:170-243 | the member loop, shared by line and header, computes the reading function |
| LineParser.ParseOneLine | src/ingestion/JsonNativeDataParser.cpp:250-469 | the whole line parser computes the line function, with its errors |
| LineParser.ReadsValue | src/ingestion/JsonNativeDataParser.cpp:200-241 | each field's parser assigns what the value means to the field and stops right behind the value |
| LineParser.ReadsLine | src/ingestion/JsonNativeDataParser.cpp:250-469 | a well-formed line gives the merged meanings of its members, or the error for a bad or missing receive time, and stops right behind the line |
| LineParser.OrderDoesNotMatter | src/ingestion/JsonNativeDataParser.cpp:279-461 | two objects whose distinct members assign the same things mean the same |
| LineOrder.OrderIsFree | src/ingestion/JsonNativeDataParser.cpp:279-461 | any reordering of distinct well-formed members, with members that are passed over put anywhere among them, is well formed and distinct again and means the same |
| LineOrder.LaterWins | src/ingestion/JsonNativeDataParser.cpp:279-461 | when members are read into the same field, the last one counts |
| LineOrder.RearrangedLine | src/ingestion/JsonNativeDataParser.cpp:250-469 | a line whose members are so rearranged gives the same event or the same error |
| LineSpaces.SpacesDoNotMatter | src/ingestion/JsonNativeDataParser.cpp:260-279 | spaces and further commas before a key, and spaces and further colons behind it, change nothing |
| LineParser.LinesAgree | src/ingestion/JsonNativeDataParser.cpp:250-469 | two well-formed lines with the same assignments give the same event or the same error |
| LineFile.ParseFile | src/ingestion/JsonNativeDataParser.cpp:512-529 | the loop over a file, with recovery to the next line end after an exception, computes the sequence of its events |
| LineFile.ParsesFile | src/ingestion/JsonNativeDataParser.cpp:512-529 | a file of lines, blank ones and ones padded with spaces or carriage returns included, and with or without a line feed behind the last one, gives the events of its good lines, all and in order, wherever in a bad line the exception left the position |
| LineRoundTrip.PriceMeaning | src/ingestion/JsonNativeDataParser.cpp:336-366 | a price of either sign with 0 to 9 decimals is read exactly, what stands behind the ninth decimal is not read, and null assigns nothing |
| LineRoundTrip.WrittenThenParsed | src/ingestion/JsonNativeDataParser.cpp:250-469 | a line with all members, the symbol included, written from any numbers, prices, times and letters, gives each field: unsigned numbers modulo the field's width, B as 1, A and S as -1, any other side letter as 0, the action's code point |
| LineRoundTrip.SideAndActionParsed | src/ingestion/JsonNativeDataParser.cpp:291-400 | the letters of an event's side and action come back as the source's numbers for them |
| LineRoundTrip.MissingReceiveTime | src/ingestion/JsonNativeDataParser.cpp:466-469 | a line without a receive time, or with one of 0, gives no event |
| LineRoundTrip.ShortReceiveTime | src/ingestion/JsonNativeDataParser.cpp:122-129 | a receive time of 1 to 18 characters is an error |
| LineRoundTrip.SameAssignmentsParsed | src/ingestion/JsonNativeDataParser.cpp:250-469 | the same for every line whose distinct members assign the same |
| LineRoundTrip.AnyOrderParsed | src/ingestion/JsonNativeDataParser.cpp:250-469 | the same for every permutation of the members, those of the header included, with members that are passed over among them |

## Left out

- Concurrency is modelled as state machines over values (`LockFreeQueue`, `HierarchyMerger`,
  `ShardedRouter`), not as classes: Dafny has no threads. Spin hints and condition variables become
  enabled steps; a `BlockingQueue` operation is one step.
- C++ memory order is modelled by stale loads as described above, not by the full memory model.
- LevelList.TotalFits: the totals are unbounded integers in the model; the 64-bit word of the source is covered by this bound only.
- IsoTimestamp.ParseIso8601Nanos: 64-bit overflow outside the range of `ComputesInInt64` is not modelled; the leap second 60 is read as the next minute's 0.
- LineParser.LinesAgree: values are those the field parsers are written for (`Conforms`); fractions in integer fields and empty one-letter strings are not covered.
- LineParser.ReadsLine: the text is free of escapes, and of white space but for the gaps of `LineSpaces` and around lines; a timestamp that throws is a mark on the result instead of an exception in mid-line; a price beyond 64 bits does not wrap.
- LineParser.ParseSigned: negating the word -2147483648 overflows in the source; the model gives 2147483648.
- LineFile.ParsesFile: where an exception leaves the position is a parameter.
- ShardedRouter.ShardedRefinesSimple: book 0 is left to `BookZeroDivided`: it is one book in the simple router and one per shard in the other. A Clear without an order id so clears no instrument's book in either router.
- The books inside the routers are represented by the events they were given, not by book objects.
- `BookAnomalyLog`, snapshot and best-price printing, timers, benches and argument parsing: output only.
- `levels_cache_`, move construction, `delete` and memory resources: the model allocates and never frees.
- The Feather and the `strptime`-based JSON parser, memory mapping and files: libraries and input.
- End-to-end delivery through `main.cpp`: the queue is closed before the batcher flushes, so no such claim is made.
- Hash maps, `std::map`, B-trees and the heap of `FlatMerger` are maps and bags; their own algorithms are not modelled.
