# Verified model of the feed handler and the golden order book

Dafny proofs about five connected parts of the system: the order books, the live path that feeds them through
a lossy ring, the capture journal and its replay, the FIX codec, and the Deribit session with the stop signal.
`dafny verify dfyconfig.toml` checks everything.

How the parts are stated:

- **Order books** (`L3*`, `L2*`, `Kraken*`, `Engine`, `ArrivalOrder`, `LevelMaps`, `StableSort`). An order-by-order book is
  specified as a flat list of orders in arrival order (`L3List`). The class with bid levels, ask levels and an
  index is proved to be that list after every operation, its view to be the list stably sorted, its change
  reports to be complete. `L3Batch` and `L2Batch` say what a batch means id by id and level by level,
  `L3Prices` what best, view and depth mean in plain prices. `KrakenBook` and `L2Book` add the readiness machine and the listener and prove what
  Ready means over every run of messages.
- **Live book path** (`BookAdapter`, `BookService`, `LossyStream`, `LiveBookPath`, `BookHistory`, `BookDoubt`, `LiveBooks`). The adapter is
  generic in the book policy. `LossyStream` compares a book behind the ring with a loss-free one at the same
  place of the stream; `LiveBookPath` does so for every interleaving of the producer with the book thread;
  `BookHistory` says which messages a book is made of and `BookDoubt` exactly when the adapter doubts it; `LiveBooks` puts them together for the two
  exchanges' books.
- **Journal** (`Journal*`, `Crc32`, `CaptureSession`, `Threaded*`, `SinkTrace`, `ReplayBooks`). The byte format and its reader and writer, crash tails and damage, the session in inline mode as a class and in
  threaded mode as a machine of atomic steps of two threads, and replay reproducing the live calls.
- **FIX** (`Fix*`, `Decimal`). Building, framing, parsing and repeating groups, and how they undo each other; `FixEnvelope` says
  exactly which bytes are accepted.
- **Deribit and stopping** (`Deribit*`, `StopSignal`, `JournalWake`).

Conventions of the model:

- Loops and objects of the source are methods and classes proved against value-level functions; concurrent code
  is a machine whose runs are all finite sequences of enabled actions. Memory is sequentially consistent and a
  ring is a FIFO that may refuse a frame at any time.
- Prices and quantities are unbounded integers (overflow of the source's 64-bit arithmetic is undefined there),
  order ids are abstract, timestamps are integers ordered as their fixed-width texts are.
- 64-bit capture and connect counters do not reach their limit: where they would, the step is not taken.
- The journal's output stream holds bytes back; what it passes on, and what a failure keeps of them, is any first
  part (`JournalWriter.dfy`). That a bad stream might later repeat bytes is not modelled.
- Clocks, sockets, file outcomes, the exchange parsers of the adapter and the decimal conversion are parameters.
- A duplicate New in an L2 book overwrites, as the release build does behind its debug assertion.
- docs/modules/order-book.md says replayed frames carry no source; src/book_adapter/journal_replay.cpp:131-135
  gives them the source their exchange tag stands for. The model follows the code.

Four promises do not hold as one might read them, and the condition is proved instead: sorting the Adds
of a Kraken message can move an Add behind a Modify of the same order (`ArrivalOrder.AppliedBefore` says exactly
when); an inline session whose marker could not be written lets later frames reach sinks that heard no connect
(`CaptureSessions.MarkerFailureMisorders` is such a session, `CaptureSessions.CaptureSession.OnWireMessage` says
exactly when order survives); an exchange tag longer than its field is cut (`JournalHeader.TagKept`); and the
journal ring can refuse more than one frame (`ThreadedRefusals.AnotherRefusalExactlyWhenClaimed` says exactly when).

## Model

| member | source | states |
|---|---|---|
| `L3Policies.L3Policy.constructor` | src/order_book/l3_policy.h:61-63 | a new book stands for the empty order list |
| `L3Policies.L3Policy.Best` | src/order_book/l3_policy.h:65-67 | the highest bid or the lowest ask that an order rests at, compared as integers, with the total of its orders; None exactly when the side is empty |
| `L3Policies.L3Policy.OrderQuantity` | src/order_book/l3_policy.h:91-95 | an order's quantity exactly when the list holds its id |
| `L3Policies.L3Policy.EntriesOf` | src/order_book/l3_policy.h:205-219 | a side of GetBookView: with enough levels it is the order list stably sorted best price first, otherwise the first levels of that; bid prices never rise and ask prices never fall along it |
| `L3Policies.L3Policy.LevelAggregate` | src/order_book/l3_policy.h:180-186 | the sum over the ids through the index, every lookup safe |
| `L3Policies.L3Policy.ApplySnapshot` | src/order_book/l3_policy.h:101-118 | the book becomes the snapshot's orders added one by one, which is spelt out id by id as for a batch, and then truncated; both tops are reported changed; the issue is a crossed book exactly when the result is crossed |
| `L3Policies.L3Policy.ApplyBatch` | src/order_book/l3_policy.h:120-157 | before truncation the list is what `L3Batches.BatchMeans` says id by id, and then it is truncated; folding the reported level changes and order events over the old level totals and index gives the ones before truncation, every event fits what a listener holds by then and comes with a change of its level, and cutting the folded totals to the depth gives the new totals; each top flag is set exactly when Best changed; the issue is the unknown order first, then the crossing |
| `L3Policies.L3Policy.AddOrder` | src/order_book/l3_policy.h:221-246 | an order of the same id is dropped and the new one joins the end, in all three structures, with the changes reported |
| `L3Policies.L3Policy.ModifyOrder` | src/order_book/l3_policy.h:257-271 | a known order changes quantity in place, an unknown one changes nothing and is reported |
| `L3Policies.L3Policy.DeleteOrder` | src/order_book/l3_policy.h:273-287 | a known order leaves all three structures, an unknown one is reported |
| `L3Policies.L3Policy.RemoveOrderFromLevel` | src/order_book/l3_policy.h:289-304 | the id leaves its level and an emptied level is erased, reported as removed or with its new total |
| `L3Policies.L3Policy.AddOrderToLevel` | src/order_book/l3_policy.h:247-255 | the id joins the end of its level, which is made when missing |
| `L3Policies.L3Policy.TruncateToDepth` | src/order_book/l3_policy.h:165-178 | exactly the orders at the `maxDepth` best prices of the side stay, in the levels and in the index; every bid kept is above every bid dropped, every ask kept below |
| `L3Batches.BatchDoesThis` | src/order_book/l3_policy.h:120-157 | what a batch leaves, without running it: an id rests exactly when its latest Add, or an order that was there, has no Delete after it; side and price are the latest Add's, the quantity is the latest event's; orders stand in the order of their latest Adds, behind those not added again in their old order |
| `L3Batches.BatchLeavesExactly` | src/order_book/l3_policy.h:120-157 | no other list satisfies that |
| `L3Batches.LastWordIsAdd` | src/order_book/l3_policy.h:221-255 | an id whose last update is an Add is held with that side, price and quantity, behind every order no later Add announced |
| `L3Batches.LastWordIsModify` | src/order_book/l3_policy.h:257-271 | an id whose last update is a Modify is held exactly if it was when the update came, keeps side, price and place among the others, and has the new quantity |
| `L3Batches.LastWordIsDelete` | src/order_book/l3_policy.h:273-304 | an id whose last update is a Delete is not held |
| `L3Batches.NotNamedIsUntouched` | src/order_book/l3_policy.h:120-157 | an id no update names keeps its record, and its place among the others not added |
| `L3Batches.UnknownOrderMeans` | src/order_book/l3_policy.h:257-287 | a batch is flagged exactly when one of its Modifies or Deletes is of an order not resting by then |
| `L3Prices.BestIsOne` | src/order_book/l3_policy.h:188-194 | an entry is the best of a side if and only if it has the highest bid price or the lowest ask price held, and the total there |
| `L3Prices.UncrossedIsSeparated` | src/order_book/book_view.h:46-49 | not crossed if and only if every bid price is below every ask price |
| `L3Prices.ViewGoesFromBest` | src/order_book/l3_policy.h:205-219 | bid prices of the view never rise and ask prices never fall, it holds exactly the side's orders, and orders at one price stay in arrival order |
| `L3Prices.TruncateKeepsTheBest` | src/order_book/l3_policy.h:165-178 | truncation keeps orders only; on each side every price kept beats every price dropped, and the depth many prices stay, or all of them if there are no more |
| `L3Levels.MatchAppend` | src/order_book/l3_policy.h:247-255 | adding to a level keeps "a level exists exactly for the prices orders rest at, ids oldest first" |
| `L3Levels.MatchWithout` | src/order_book/l3_policy.h:289-304 | removing from a level keeps it |
| `L3Levels.MatchBest` | src/order_book/l3_policy.h:188-194 | the front level is the best price of the order list |
| `L3Depth.MatchTruncate` | src/order_book/l3_policy.h:165-178 | cutting the level map after n levels is keeping the orders whose price has fewer than n better ones |
| `L3Depth.IndexTruncate` | src/order_book/l3_policy.h:165-178 | erasing the cut levels' ids from the index leaves the index of the kept orders |
| `L3Depth.CutIsTruncate` | src/order_book/l3_policy.h:165-178 | truncating the book is cutting its level totals to the depth best prices per side |
| `L3View.LevelsAreSideView` | src/order_book/l3_policy.h:205-219 | reading the levels in order is the stable sort of the arrival list by price rank |
| `L3Structures.IndexedExactlyOnce` | src/order_book/l3_policy.h:101-304 | an id is in a level exactly when its index record names that side and price, and there once |
| `L3Structures.LevelIsSound` | src/order_book/l3_policy.h:101-304 | no level is empty, none lists an id twice, and every listed id is indexed under that side and price |
| `L3Structures.IndexedHasALevel` | src/order_book/l3_policy.h:273-304 | the level an index record names exists and holds the id |
| `StableSort.SortIsStable` | src/order_book/kraken_l3_policy.h:88-91 | the insertion sort used as reference is a stable sort |
| `StableSort.StableSortUnique` | src/order_book/kraken_l3_policy.h:88-91 | a list has only one stable sort |
| `LevelMaps.PutOther` | src/order_book/types.h:33-40 | insert_or_assign touches no other key of an ordered level map |
| `LevelMaps.EraseOther` | src/order_book/types.h:33-40 | erase touches no other key |
| `LevelMaps.FrontIsBest` | src/order_book/types.h:33-40 | begin() of a side's map is its best price |
| `Crc32.Compute` | src/order_book/kraken_checksum.cpp:15-24 | the bit loop computes the CRC-32 of section 8 of RFC 1952 |
| `Crc32.ComputeUpdate` | src/feed_handler/journal_format.cpp:9-22 | the chunked zlib loop continues a finished CRC over the whole buffer |
| `Crc32.UpdateConcat` | src/feed_handler/journal_format.cpp:9-22 | the CRC of a concatenation is the second piece's, continued from the first's |
| `Crc32.SplitIndependent` | src/feed_handler/journal_format.cpp:9-22 | any split into pieces gives the CRC of the whole |
| `Crc32.CheckValue` | src/order_book/kraken_checksum.cpp:15-24 | the published check value: "123456789" gives 0xCBF43926, so polynomial, preset and final flip are the right ones |
| `Crc32.OneDifferenceDetected` | src/order_book/kraken_checksum.cpp:15-24 | strings of one length that differ in exactly one byte have different CRCs |
| `KrakenChecksum.AppendTopLevels` | src/order_book/kraken_checksum.cpp:29-43 | appends price and quantity text of the entries of the first ten price levels |
| `KrakenChecksum.KrakenL3Checksum` | src/order_book/kraken_checksum.cpp:47-52 | the CRC of asks then bids, ten levels each, price text before quantity text |
| `KrakenChecksum.ChecksumOfNumbers` | src/order_book/kraken_checksum.cpp:29-52 | the checksum is the CRC of one list of numbers: those of the asks, then those of the bids |
| `KrakenChecksum.NumbersAt` | src/order_book/kraken_checksum.cpp:29-43 | in that list entry i stands at places 2i, its price, and 2i + 1, its quantity |
| `KrakenChecksum.WindowSuffices` | src/order_book/kraken_checksum.cpp:29-43 | any window of at least ten levels, or of all levels, has the same top ten levels as the whole side |
| `KrakenChecksum.RunsOfWindow` | src/order_book/l3_policy.h:205-219 | n levels read in order are n runs of equal prices |
| `ArrivalOrder.AddsInArrivalOrder` | src/order_book/kraken_l3_policy.h:81-101 | every non-Add stays at its index and the Add positions hold the Adds in timestamp order, ties in wire order |
| `ArrivalOrder.ReorderedIsArrivalOrder` | src/order_book/kraken_l3_policy.h:81-101 | the computed list is such a rearrangement |
| `ArrivalOrder.ArrivalOrderUnique` | src/order_book/kraken_l3_policy.h:81-101 | there is only one such rearrangement |
| `ArrivalOrder.OrderedAddsUntouched` | src/order_book/kraken_l3_policy.h:81-101 | Adds already in timestamp order are left alone |
| `ArrivalOrder.DestinationHoldsIt` | src/order_book/kraken_l3_policy.h:81-101 | where each Add of the message ends up |
| `ArrivalOrder.AppliedBefore` | src/order_book/kraken_l3_policy.h:81-101 | an Add is applied before the update at index j if and only if fewer Adds sort before it than stand before j on the wire |
| `ArrivalOrder.ModifyCanOvertakeItsAdd` | src/order_book/kraken_l3_policy.h:81-101 | a concrete message whose Modify is moved before its own Add, so that a sound message reports an unknown order |
| `KrakenBooks.KrakenL3Policy.ApplySnapshot` | src/order_book/kraken_l3_policy.h:62-66 | the order book's snapshot with its report and flags, then the checksum; an earlier issue is kept |
| `KrakenBooks.KrakenL3Policy.ApplyBatch` | src/order_book/kraken_l3_policy.h:68-72 | the batch in arrival order with its report and flags, then the checksum; an earlier issue is kept |
| `KrakenBooks.KrakenL3Policy.VerifyChecksum` | src/order_book/kraken_l3_policy.h:103-111 | a mismatch is reported unless something was reported before |
| `Engines.Notify` | src/order_book/engine.h:134-181 | the listener is told tops of book that changed, then levels, then orders, then an integrity failure; the levels, orders and failures among the notices are exactly those given |
| `Engines.NoticesTell` | src/order_book/engine.h:134-181 | a listener hears every level change, every order event and the failure, once each and in order |
| `Engines.ToldAfter` | src/order_book/engine.h:134-181 | after a message the listener knows the tops it was told and otherwise what it knew |
| `KrakenBooks.KrakenOrderBook.Notify` | src/order_book/engine.h:134-181 | the listener hears the change set and knows the best entry of each side |
| `KrakenBooks.KrakenOrderBook.ApplySnapshot` | src/order_book/engine.h:77-82 | one step of the run: Ready unless an issue was reported; the listener hears exactly the change set and, as after every message, knows the best entries |
| `KrakenBooks.KrakenOrderBook.ApplyBatch` | src/order_book/engine.h:111-118 | a batch on a book that is not Ready changes and tells nothing; otherwise one step of the run, told to the listener |
| `KrakenBooks.ReadyBookChecksOut` | src/order_book/engine.h:77-132 | over every run of messages, a Ready book has every bid price below every ask price, its checksum is the last message's, and since some snapshot every message was applied and every batch was of orders resting by then |
| `KrakenBooks.WindowedChecksum` | src/order_book/kraken_l3_policy.h:106-111 | the checksum over any windows of at least ten levels equals the one over the whole book |
| `L2LevelMaps.L2Levels.Best` | src/order_book/l2_policy.h:74-76 | the quantity of the highest bid or lowest ask level, compared as integers; None exactly when the side is empty |
| `L2Values.BestIsOne` | src/order_book/l2_policy.h:133-139 | an entry is the best of a side if and only if it is that level |
| `L2Values.UncrossedIsSeparated` | src/order_book/book_view.h:46-49 | not crossed if and only if every bid level is below every ask level |
| `L2Batches.BatchDoesThis` | src/order_book/l2_policy.h:107-160 | what a batch leaves, level by level and without running it: there exactly when its latest New, or a level that was there, has no Delete after it, with the quantity of the latest word on it |
| `L2Batches.BatchLeavesExactly` | src/order_book/l2_policy.h:107-160 | no other book satisfies that |
| `L2Batches.UnknownLevelMeans` | src/order_book/l2_policy.h:141-160 | a batch is flagged exactly when one of its Changes or Deletes is of a level not there by then |
| `L2Batches.SnapshotHolds` | src/order_book/l2_policy.h:83-105 | a snapshot holds the levels it lists, each with the quantity listed last; Delete entries do not count |
| `L2LevelMaps.L2Levels.ReplaceWith` | src/order_book/l2_policy.h:83-105 | the levels become the snapshot's; both tops reported changed; crossed reported exactly when crossed |
| `L2LevelMaps.L2Levels.ApplyUpdates` | src/order_book/l2_policy.h:107-130 | the updates in order, spelt out level by level as `L2Batches.BatchMeans`; the reported level changes fold the old level map into the new one; each top flag set exactly when Best changed |
| `L2LevelMaps.L2Levels.ApplyOne` | src/order_book/l2_policy.h:141-160 | one New, Change or Delete; a Change or Delete of an unknown level is reported and changes nothing |
| `L2Books.L2Policy.ApplySnapshot` | src/order_book/l2_policy.h:179-183 | levels replaced, both tops reported changed, the change id taken over |
| `L2Books.L2Policy.ApplyBatch` | src/order_book/l2_policy.h:185-199 | a broken previous-change-id chain applies nothing and is reported as a gap; level changes and top flags as for the levels |
| `L2Books.SequencedOrderBook.ApplyBatch` | src/order_book/engine.h:111-118 | one step of the run, told to the listener, which then knows the best entries; nothing unless Ready |
| `L2Books.SequencedOrderBook.ApplySnapshot` | src/order_book/engine.h:77-82 | as above for a snapshot |
| `L2Books.SequencedOrderBook.Notify` | src/order_book/engine.h:134-181 | the listener hears the change set and knows the best entry of each side |
| `L2Books.UnsequencedOrderBook.ApplyBatch` | src/order_book/engine.h:111-118 | one step of the run, told to the listener, which then knows the best entries; nothing unless Ready |
| `L2Books.UnsequencedOrderBook.ApplySnapshot` | src/order_book/engine.h:77-82 | as above for a snapshot |
| `L2Books.UnsequencedOrderBook.Notify` | src/order_book/engine.h:134-181 | the listener hears the change set and knows the best entry of each side |
| `L2Books.ReadyIsUnbroken` | src/order_book/l2_policy.h:179-199 | over every run, a Ready sequenced book's batches since its snapshot form an unbroken chain of change ids, its levels are those of that snapshot and those batches, and every bid level is below every ask level |
| `L2Books.ReadyBatchesKnown` | src/order_book/l2_policy.h:141-160 | and every batch of that chain was of levels there by then |
| `L2Books.ReadyIsUncrossed` | src/order_book/l2_policy.h:219-225 | over every run, a Ready unsequenced book has every bid level below every ask level, and since some snapshot every batch was of levels there by then |
| `BookServices.SpscRing.Push` | src/feed_handler/spsc_ring.h:46-52 | a frame is queued, or refused and counted |
| `BookServices.SpscRing.PushControl` | src/feed_handler/spsc_ring.h:56-58 | a control event is always queued |
| `BookServices.SpscRing.Pop` | src/feed_handler/spsc_ring.h:62-64 | the oldest element, or nothing when empty |
| `BookServices.RingSink.OnFrame` | src/book_adapter/ring_sink.h:49-52 | a frame is offered stamped with the drops before it |
| `BookServices.RingSink.OnConnect` | src/book_adapter/ring_sink.h:54-60 | queued without loss, stamped |
| `BookServices.RingSink.OnDisconnect` | src/book_adapter/ring_sink.h:62-65 | queued without loss, stamped |
| `BookServices.BookService.Dispatch` | src/book_adapter/book_service.cpp:104-115 | the drops an entry carries are reported before the entry is handed on |
| `BookServices.BookService.Drain` | src/book_adapter/book_service.cpp:94-102 | at most 64 entries of one feed, in order |
| `BookServices.BookService.DrainPass` | src/book_adapter/book_service.cpp:86-92 | one bounded drain of every feed; zero handled means every ring is empty |
| `BookServices.BookService.Poll` | src/book_adapter/book_service.cpp:62-68 | terminates with every ring empty and each queued entry dispatched exactly once in its feed's order |
| `BookServices.BookService.Run` | src/book_adapter/book_service.cpp:70-84 | with the producers ended, the same |
| `BookServices.BookService.Stop` | src/book_adapter/book_service.cpp:43-60 | what is queued is delivered and the trailing drops of every feed are reported, once; a second call does nothing |
| `BookServices.DeliveredIsBehindRing` | src/book_adapter/book_service.cpp:94-124 | delivering what a feed's accepted offers were stamped is the adapter behind the ring |
| `BookServices.StoppedServiceIsTrueOrDesynced` | src/book_adapter/book_service.cpp:43-60 | a stopped service accounts for every frame offered and its books are the loss-free ones or read Desynced after a loss |
| `BookServices.DeliverSplit` | src/book_adapter/book_service.cpp:94-115 | delivering in batches is delivering in one go |
| `BookAdapters.BookAdapter.OnConnect` | src/book_adapter/book_adapter.cpp:87-100 | the connection starts without books and is not stale; the connect is counted |
| `BookAdapters.BookAdapter.OnDisconnect` | src/book_adapter/book_adapter.cpp:102-108 | the connection is stale, so later frames are ignored; its books stay as they are |
| `BookAdapters.BookAdapter.OnFramesDropped` | src/book_adapter/book_adapter.cpp:110-122 | drops are counted and every book reads Desynced; zero drops change nothing |
| `BookAdapters.BookAdapter.OnFrame` | src/book_adapter/book_adapter.cpp:142-160 | a stale or unsupported connection ignores frames; an unusable payload puts the named book, or all of them, in doubt and touches no other; otherwise the messages are applied book by book, a snapshot clears the doubt, and without one a doubted book stays |
| `BookAdapters.BookAdapter.OnEvent` | src/book_adapter/book_adapter.cpp:124-140 | dispatch by kind of event |
| `BookAdapters.FramePerSymbol` | src/book_adapter/book_adapter.cpp:171-333 | what one frame does to one symbol's book depends on that book and the frame alone |
| `BookAdapters.SnapshotForgets` | src/book_adapter/book_adapter.h:177-182 | after a frame with a snapshot for a symbol, its book no longer depends on what it was |
| `BookAdapters.NoSnapshotKeepsDoubt` | src/book_adapter/book_adapter.h:156-192 | without a snapshot no book appears, and a doubted one stays exactly as it was |
| `BookDoubt.DoubtedExactly` | src/book_adapter/book_adapter.cpp:171-333 | after any delivered entry the adapter doubts an existing book if and only if, since its last snapshot, a frame was refused or a payload arrived that its parser could not use for it or for any symbol |
| `BookDoubt.DoubtedExactlyAtTheEnd` | src/book_adapter/book_service.cpp:126-136 | the same for the whole stream once trailing drops are reported |
| `LossyStream.ReadyNeverOverAHole` | src/book_adapter/ring_sink.h:49-69 | after any delivered entry a book behind the ring equals the loss-free one, or a frame was lost since its last snapshot and it reads Desynced |
| `LossyStream.ReadyNeverOverATrailingHole` | src/book_adapter/book_service.cpp:126-136 | the same for the whole stream once trailing drops are reported |
| `LossyStream.NothingUnaccountedFor` | src/book_adapter/book_service.cpp:117-136 | frames applied plus frames refused are the frames offered, and drops counted are drops reported |
| `LiveBookPath.AlwaysInv` | src/book_adapter/book_service.cpp:43-136 | an invariant of every interleaving of one producer with the book thread and every pattern of refusals |
| `LiveBookPath.LiveBooksAreTrueOrDesynced` | src/book_adapter/book_service.cpp:94-115 | in every interleaving, whenever the book thread is between entries, every existing book is the loss-free one or reads Desynced after a loss |
| `LiveBookPath.StoppedBooksAreTrueOrDesynced` | src/book_adapter/book_service.cpp:43-60 | after Stop the same over the whole stream, and frames applied plus drops reported equal frames offered |
| `LiveBooks.SnapshotsReset` | src/order_book/engine.h:77-82 | for both exchanges a snapshot determines the book whatever it was |
| `BookHistory.BooksAreTheirMessages` | src/book_adapter/book_adapter.cpp:171-333 | every book behind the ring is the fold of the messages the adapter applied to it since the connect, and while Ready these are, since its snapshot, everything the feed delivered for its symbol |
| `LiveBooks.LiveBooksAreTheirMessages` | src/book_adapter/book_service.cpp:94-136 | the same in every interleaving, after Stop included |
| `LiveBooks.LiveOrStopped` | src/book_adapter/book_service.cpp:43-136 | before and after Stop: the loss-free book or Desynced after a loss |
| `LiveBooks.LiveDoubtedExactly` | src/book_adapter/book_adapter.cpp:171-333 | in every interleaving and after Stop, a book is doubted if and only if a frame was refused or unusable since its last snapshot |
| `LiveBooks.LiveKrakenReady` | src/order_book/kraken_l3_policy.h:62-72 | in every interleaving and after Stop, a Kraken book is the loss-free one or reads Desynced; Ready, it is the run of the messages applied to it, no frame was refused or unusable since its snapshot, every bid price is below every ask price, and it has the checksum of the last message the feed delivered for its symbol |
| `LiveBooks.LiveDeribitReady` | src/order_book/l2_policy.h:213-225 | likewise for Deribit: true or Desynced, and Ready means the run of everything delivered since the snapshot, nothing refused or unusable since then, and every bid below every ask |
| `JournalFormat.StoreLe` | src/feed_handler/journal_format.h:88-94 | writes the little-endian bytes in place and nothing else |
| `JournalFormat.LoadLe` | src/feed_handler/journal_format.h:97-105 | reads the value those bytes stand for |
| `JournalFormat.FromLeOfLe` | src/feed_handler/journal_format.h:88-105 | storing and loading give the value back |
| `JournalFormat.FromLeInjective` | src/feed_handler/journal_format.h:97-105 | different bytes load to different values |
| `JournalWriters.BuildFileHeader` | src/feed_handler/journal_writer.cpp:21-42 | the 64-byte header with its CRC |
| `JournalWriters.BuildRecordHead` | src/feed_handler/journal_writer.cpp:78-86 | the 24-byte record header |
| `JournalWriters.JournalWriter.constructor` | src/feed_handler/journal_writer.cpp:11-46 | the header is handed to the stream, which holds it back; nothing is in the file yet |
| `JournalWriters.JournalWriter.WriteRecord` | src/feed_handler/journal_writer.cpp:62-105 | a record is taken whole exactly when nothing failed before, its sequence is higher, it fits and the stream takes it; otherwise the writer fails for good; what is in the file stays, and a stream that goes bad may lose any end of what it held back |
| `JournalWriters.JournalWriter.Flush` | src/feed_handler/journal_writer.cpp:107-112 | everything taken is in the file, or the writer fails and what was held back may be lost |
| `JournalWriters.JournalWriter.FileReads` | src/feed_handler/journal_writer.cpp:62-112 | at any time and after any failure: a file shorter than its header does not open; otherwise it reads as the first records written, no flushed one missing and at most the failed one following; flushed and unfailed, as all of them |
| `JournalWriters.PrefixReads` | src/feed_handler/journal_reader.cpp:23-126 | a file cut anywhere, header included: refused below 64 bytes, else the records wholly before the cut |
| `JournalHeader.HeaderReadsBack` | src/feed_handler/journal_reader.cpp:23-68 | a written header opens with the same fields |
| `JournalHeader.TagKept` | src/feed_handler/journal_reader.cpp:59-65 | the exchange tag survives if and only if it has at most 16 bytes and no NUL |
| `JournalReaders.Open` | src/feed_handler/journal_reader.cpp:23-68 | opens exactly the well-formed headers, naming the first defect otherwise |
| `JournalReaders.JournalReader.Next` | src/feed_handler/journal_reader.cpp:70-126 | gives the next valid record or stops for good, early exactly when bytes of an invalid record remain |
| `JournalReaders.JournalReader.Stop` | src/feed_handler/journal_reader.cpp:128-134 | the first reason is kept |
| `JournalRecords.ReadsBack` | src/feed_handler/journal_reader.cpp:70-126 | a written record reads back whatever follows it |
| `JournalRecords.WholeFileReadsBack` | src/feed_handler/journal_reader.cpp:70-126 | written records read back all, in order, to a clean end |
| `JournalRecords.CrashTail` | src/feed_handler/journal_reader.cpp:70-126 | for every cut of a written file the reader gives exactly the records wholly before it and stops early exactly when the cut is not on a record boundary |
| `JournalRecords.DamageStops` | src/feed_handler/journal_reader.cpp:101-111 | one changed byte of a record outside its length bytes is a checksum stop |
| `JournalRecords.DamagedFile` | src/feed_handler/journal_reader.cpp:70-126 | so the reader gives exactly the records before the damaged one |
| `SinkTrace.PrefixInOrder` | src/feed_handler/message_sink.h:71-104 | what a sink was told in order stays in order whatever follows |
| `CaptureSessions.CaptureSession.constructor` | src/feed_handler/capture_session.cpp:38-46 | a session with nothing open |
| `CaptureSessions.CaptureSession.Stamp` | src/feed_handler/message_sink.h:119-135 | capture numbers go up by one |
| `CaptureSessions.CaptureSession.Close` | src/feed_handler/capture_session.cpp:171-195 | the file is closed first, then the sinks hear of the end, once and only of an announced connect |
| `CaptureSessions.CaptureSession.BeginConnect` | src/feed_handler/capture_session.cpp:78-145 | closes, counts, opens a file with its marker and announces; on a failure nothing is announced |
| `CaptureSessions.CaptureSession.StartFile` | src/feed_handler/capture_session.cpp:122-144 | the marker is the first record; a marker that cannot be written leaves the writer without an announcement |
| `CaptureSessions.CaptureSession.OnWireMessage` | src/feed_handler/capture_session.cpp:147-169 | journal first, sinks second; the sinks' order survives if and only if the connect was announced or there is no file |
| `CaptureSessions.MarkerFailureMisorders` | src/feed_handler/capture_session.cpp:130-134 | a session that breaks it: a marker that cannot be written, then a wire message |
| `JournalReplays.ReplayReader` | src/book_adapter/journal_replay.cpp:119-139 | one file's records as adapter calls |
| `JournalReplays.ReplayOneFile` | src/book_adapter/journal_replay.cpp:90-144 | one file: refused, or replayed record by record |
| `JournalReplays.Run` | src/book_adapter/journal_replay.cpp:74-151 | the files in order, the last open connect ended |
| `JournalReplays.FileReplays` | src/book_adapter/journal_replay.cpp:90-144 | a file of one good connect replays as that connect, ending the one before it |
| `JournalReplays.ReplayReproducesLive` | src/book_adapter/journal_replay.cpp:74-151 | over the files of connects journaled in full, the adapter is called exactly as the live sinks were |
| `ReplayBooks.InlineReplayReproducesLive` | src/feed_handler/capture_session.cpp:78-195 | the files of an intact, closed inline session replay to what its sinks were told |
| `ReplayBooks.InlineBooksAreReproduced` | src/book_adapter/journal_replay.cpp:90-148 | so books and counters of the replay equal those of the live run |
| `ReplayBooks.ThreadedBooksAreReproduced` | src/book_adapter/journal_replay.cpp:90-148 | the same with the journal on its own thread, for every interleaving |
| `ReplayBooks.LiveBooksAreTheReplayedOnes` | src/book_adapter/journal_replay.cpp:74-151 | a live service and a threaded journal fed the same events, each in any interleaving: every live book is the one a replay of the files builds, or reads Desynced after a loss to the ring |
| `ThreadedCapture.AlwaysInv` | src/feed_handler/journal_thread.cpp:30-129 | an invariant of every interleaving of the connection thread and the journal thread, with every overflow, open, write and flush failure |
| `ThreadedCapture.FilesArePrefixes` | src/feed_handler/journal_thread.cpp:100-129 | no file has a hole: what its writer took, and the record whose write failed, are the first ones stamped for its connect, marker first, and every file before the last holds them all |
| `ThreadedCapture.DiskReadsAsAPrefix` | src/feed_handler/journal_thread.cpp:93-129 | any first part of the bytes a file's stream was given, which is what a failure leaves, reads as the first of the records stamped |
| `ThreadedCapture.UnfailedCloseIsComplete` | src/feed_handler/journal_thread.cpp:47-53 | once Disconnect has returned, an unfailed journal holds every frame stamped, in every file |
| `ThreadedCapture.FatalAtMostOnce` | src/feed_handler/journal_thread.cpp:81-91 | the fatal callback runs at most once, and only for a published failure |
| `ThreadedCapture.NoFileAfterAFailure` | src/feed_handler/capture_session.cpp:86-91 | a failure is for good and no file is opened after one |
| `ThreadedCapture.SinksStayInOrder` | src/feed_handler/capture_session.cpp:78-195 | sinks see (Connect k, frames 2, 3, ..., Disconnect k)* with increasing k, and a Disconnect only when its file is closed |
| `ThreadedCapture.ThreadedReplayReproducesLive` | src/feed_handler/capture_session.cpp:78-195 | replaying a closed, unfailed threaded session's files calls the adapter exactly as the live sinks were |
| `ThreadedCapture.PopKeeps` | src/feed_handler/journal_thread.cpp:100-128 | the journal thread takes events in order and each of its steps keeps the invariant |
| `ThreadedCapture.EnqueueKeeps` | src/feed_handler/journal_thread.cpp:35-45 | a push taken or refused keeps the invariant |
| `ThreadedCapture.ClaimOverflowKeeps` | src/feed_handler/journal_thread.cpp:81-91 | an overflow reported while the other thread reports its own failure keeps the invariant |
| `ThreadedCapture.ClaimWriteFailureKeeps` | src/feed_handler/journal_thread.cpp:81-98 | a write failure likewise |
| `ThreadedCapture.OpenFileKeeps` | src/feed_handler/capture_session.cpp:93-135 | a new file is begun only when everything before it is written |
| `ThreadedCapture.SecondRefusalNeedsABadWriter` | src/feed_handler/journal_thread.h:159-163 | over every run, a second refused frame means that the last file's writer failed |
| `ThreadedRefusals.AnotherRefusalExactlyWhenClaimed` | src/feed_handler/journal_thread.cpp:35-45 | in every run that has just refused a frame, another refusal can follow if and only if the overflow's claim of the latch finds it claimed by the journal thread |
| `ThreadedRefusals.OneRefusalUnlessContended` | src/feed_handler/journal_thread.h:159-163 | a run without such a lost claim has at most one refusal |
| `ThreadedRefusals.TwoRefusals` | src/feed_handler/journal_thread.h:159-163 | a run with two refused frames |
| `ThreadedRun.SomeRunIsClosedAndUnfailed` | src/feed_handler/capture_session.cpp:78-195 | every reason and payload that fit have a run that ends closed and unfailed with both in its file |
| `JournalWake.AlwaysWoken` | src/feed_handler/journal_thread.cpp:55-79 | whenever an event is queued while the journal thread is asleep, the push's own remaining steps, none of which can block, wake it without the idle poll |
| `JournalWake.AlwaysInv` | src/feed_handler/journal_thread.cpp:55-79 | the invariant behind it |
| `StopSignals.NoWaiterLeftBehind` | src/feed_handler/stop_signal.h:21-72 | in every interleaving of any number of threads, from the moment one RequestStop or LatchFatal has notified, no thread is asleep or about to sleep in WaitFor, whatever the other signalling threads do |
| `StopSignals.SleepersHaveANotifyComing` | src/feed_handler/stop_signal.h:21-72 | under a flag, either a notify is still to come or nobody sleeps |
| `StopSignals.AnswersAreTrue` | src/feed_handler/stop_signal.h:21-72 | a wait that returned true did so under a flag, which is still up; exactly one RequestStop is told it made the request |
| `StopSignals.LookDecides` | src/feed_handler/stop_signal.h:69-72 | in every run, a look at the flags answers true if and only if one is up, false if and only if none is and the timeout has passed, and otherwise the thread goes to sleep |
| `StopSignals.OnlyALookReturns` | src/feed_handler/stop_signal.h:69-72 | nothing else ends a wait or changes its answer |
| `StopSignals.WaitUnderAFlagSaysTrue` | src/feed_handler/stop_signal.h:65-72 | a wait that starts with a flag up never sleeps and can only return true, whatever the other threads do |
| `StopSignals.NotifiedWaitSaysTrue` | src/feed_handler/stop_signal.h:65-72 | so can every wait that one notify finds unfinished, asleep or not |
| `StopSignals.FlagsLatch` | src/feed_handler/stop_signal.h:39-63 | both flags stay up |
| `FixMessages.FormatChecksum` | src/feed_handler/fix/fix_message.cpp:115-127 | with a sum that wraps at 32 bits, the three digits of the true byte sum modulo 256 |
| `FixMessages.BuildMessage` | src/feed_handler/fix/fix_message.cpp:145-173 | the envelope with the body's exact length and the checksum of everything before it |
| `FixMessages.RenderBody` | src/feed_handler/fix/fix_message.cpp:156-161 | the fields one after another |
| `FixFields.ScanField` | src/feed_handler/fix/fix_message.cpp:81-111 | reads at an offset what Scan reads off the front of the rest, with the same errors in the same order |
| `FixFields.ScanWritten` | src/feed_handler/fix/fix_message.cpp:81-111 | a written field reads back whatever follows; an '=' in its value is no separator |
| `FixFields.ScanIsExact` | src/feed_handler/fix/fix_message.cpp:81-111 | what is read is digits that spell the tag, '=', the value up to SOH |
| `FixFields.ToIntOfRender` | src/feed_handler/fix/fix_message.cpp:45-57 | every 64-bit number reads back from its text |
| `FixEnvelope.ParseMessage` | src/feed_handler/fix/fix_message.cpp:214-301 | the parse of the whole message, error by error; accepted exactly are the sealed messages, and read are exactly their fields |
| `FixEnvelope.AcceptedExactly` | src/feed_handler/fix/fix_message.cpp:214-301 | accepted if and only if the bytes are BeginString, a BodyLength that counts the bytes up to the CheckSum tag, a body of fields with MsgType first, and a CheckSum of three digits spelling the byte sum of everything before it modulo 256 |
| `FixEnvelope.AcceptedSumsUp` | src/feed_handler/fix/fix_message.cpp:275-298 | every accepted message is head, CheckSum tag, =, three digits spelling the byte sum of the head modulo 256, SOH |
| `FixEnvelope.AnyOneByteChangedIsRefused` | src/feed_handler/fix/fix_message.cpp:214-301 | an accepted message with any one byte changed, anywhere and to anything, is refused |
| `FixMessages.ReadBody` | src/feed_handler/fix/fix_message.cpp:252-272 | the field loop up to the CheckSum field; the last MsgType wins |
| `FixMessages.RoundTrip` | src/feed_handler/fix/fix_message.cpp:145-301 | a message built from a valid body parses to that body and type |
| `FixMessages.RoundTripsExactlyWhenValid` | src/feed_handler/fix/fix_message.cpp:145-301 | parsing undoes building if and only if the body is valid: MsgType first and not empty, no CheckSum, int tags, no SOH in a value |
| `FixMessages.ParsedIsValid` | src/feed_handler/fix/fix_message.cpp:214-301 | every accepted message has a valid body |
| `FixMessages.RebuildingKeepsTheFields` | src/feed_handler/fix/fix_message.cpp:145-301 | an accepted message rebuilt parses to the same fields; only leading zeros are lost |
| `FixGroups.ReadGroup` | src/feed_handler/fix/fix_message.cpp:315-378 | no count, a bad count, an empty group, or entries that tile the member run behind the count |
| `FixGroups.FindEntries` | src/feed_handler/fix/fix_message.cpp:356-368 | entry starts are exactly the delimiters before the end; the end is the end of the fields, a non-member, or the delimiter of an entry too many |
| `FixGroups.CutEntries` | src/feed_handler/fix/fix_message.cpp:370-376 | the slices joined are the run, each starting with the delimiter and holding it nowhere else |
| `FixGroups.EntryCount` | src/feed_handler/fix/fix_message.cpp:315-378 | there are as many entries as declared or as delimiters present, whichever is fewer |
| `FixGroups.GroupUnique` | src/feed_handler/fix/fix_message.cpp:315-378 | a message's group has one reading |
| `FixGroups.WrittenGroupReads` | src/feed_handler/fix/fix_message.cpp:315-378 | a group written behind its count, an empty one included, reads back entry by entry |
| `FixFramers.Framer.Append` | src/feed_handler/fix/fix_message.cpp:384-387 | the held bytes grow by the chunk, nothing given out changes |
| `FixFramers.Framer.Compact` | src/feed_handler/fix/fix_message.cpp:393-399 | dropping consumed bytes changes no held byte |
| `FixFramers.Framer.ScanLength` | src/feed_handler/fix/fix_message.cpp:435-449 | the BodyLength digits, at most ten and at most the maximum |
| `FixFramers.Framer.NextMessage` | src/feed_handler/fix/fix_message.cpp:407-477 | gives the message at the front, waits, or latches the error, sticky |
| `FixFramers.FrameStays` | src/feed_handler/fix/fix_message.cpp:407-477 | a message cut or an error found stays so whatever arrives later |
| `FixFramers.ChunkingDoesNotMatter` | src/feed_handler/fix/fix_message.cpp:384-477 | any split of a stream, drained after each piece, gives the messages, the error and the buffer of the whole at once |
| `FixFramers.SameBytesSameMessages` | src/feed_handler/fix/fix_message.cpp:384-477 | two splits of the same bytes give the same messages, error and buffer |
| `FixFramers.NothingLost` | src/feed_handler/fix/fix_message.cpp:384-477 | messages given out and then the buffer are exactly the bytes appended |
| `FixFramers.BuiltIsFramed` | src/feed_handler/fix/fix_message.cpp:407-477 | a built message within the limits is framed whole, whatever follows, "10=" inside it included |
| `FixFramers.StreamRoundTrip` | src/feed_handler/fix/fix_message.cpp:145-477 | messages built from any valid bodies, sent back to back and received in any pieces, come out of framer and parser as exactly those bodies |
| `DeribitWire.ParseDeribitFixMessage` | src/book_adapter/deribit_fix_book_wire.cpp:147-201 | ignored, refused with the first thing wrong, or every entry of the group in wire order |
| `DeribitWire.ReadUpdates` | src/book_adapter/deribit_fix_book_wire.cpp:183-200 | all entries read, or the first bad one |
| `DeribitWire.AnswerUnique` | src/book_adapter/deribit_fix_book_wire.cpp:147-201 | a payload means one thing |
| `DeribitWire.NeverPartial` | src/book_adapter/deribit_fix_book_wire.cpp:131-143 | an accepted message has as many updates as its NoMDEntries says |
| `DeribitWire.BookRoundTrip` | src/book_adapter/deribit_fix_book_wire.cpp:71-201 | any snapshot or incremental written out, an empty one included, parses to exactly its levels, in order |
| `DeribitSessions.FixSession.Send` | src/feed_handler/deribit/deribit_fix_session.cpp:121-134 | outbound numbers are 1, 2, 3, ... |
| `DeribitSessions.FixSession.ResetSequenceNumbers` | src/feed_handler/deribit/deribit_fix_session.cpp:264-267 | both directions restart at 1 |
| `DeribitSessions.FixSession.OnInboundSeqNum` | src/feed_handler/deribit/deribit_fix_session.cpp:231-262 | resend, in sequence, duplicate or gap, with the numbers expected, received and missing, and what is expected next |
| `DeribitSessions.FixSession.OnInbound` | src/feed_handler/deribit/deribit_fix_session.cpp:216-229 | the session is unbroken exactly when the message keeps the stream in order |
| `DeribitSessions.NumberReads` | src/feed_handler/deribit/deribit_fix_session.cpp:121-134 | the number a message is built with is the one its receiver reads |
| `DeribitSessions.OrderlyNumbers` | src/feed_handler/deribit/deribit_fix_session.cpp:216-262 | messages the session let pass have, resends aside, the numbers 1, 2, 3, ... without a hole or a repeat |
| `DeribitClients.ClassifyInbound` | src/feed_handler/deribit/deribit_fix_client.cpp:151-194 | reconnect exactly on a broken sequence or a Logout; the request exactly on a sound Logon, an answer exactly on a sound TestRequest; the sequence verdict outranks the type |
| `DeribitClients.BreaksOrder` | src/feed_handler/deribit/deribit_fix_session.cpp:216-262 | a message breaks the order if and only if its number is unusable or, being no resend, not the expected one |
| `DeribitClients.JournaledIsReceived` | src/feed_handler/deribit/deribit_fix_client.cpp:371-392 | payloads handed over, joined, are a prefix of the bytes received |
| `DeribitClients.FixClient.OnMessage` | src/feed_handler/deribit/deribit_fix_client.cpp:385-458 | journal first, then parse, check and react; the connection goes on only in order |
| `DeribitClients.FixClient.Act` | src/feed_handler/deribit/deribit_fix_client.cpp:435-458 | a TestRequest is answered with its id, the first Logon with the one MarketDataRequest, nothing else sends; Reconnect ends the connection |
| `DeribitClients.FixClient.DrainFramedMessages` | src/feed_handler/deribit/deribit_fix_client.cpp:371-460 | every whole message is handed over, up to one that ends the connection |
| `DeribitClients.FixClient.SendHeartbeatIfDue` | src/feed_handler/deribit/deribit_fix_client.cpp:480-497 | one Heartbeat when logged on and due, otherwise nothing is sent |
| `DeribitClients.FixClient.Reset` | src/feed_handler/deribit/deribit_fix_client.cpp:284-292 | everything that defines a connection starts anew |
| `DeribitClients.FixClient.ReceiveLoop` | src/feed_handler/deribit/deribit_fix_client.cpp:321-368 | what every turn of the loop keeps |
| `DeribitClients.FixClient.RunOneConnection` | src/feed_handler/deribit/deribit_fix_client.cpp:270-369 | for every chunking and outcome: payloads handed over are a prefix of the bytes received, all but the last sound and numbered 1, 2, 3, ..., nothing held back unless one of them ended the connection, at most one MarketDataRequest, outbound numbers without holes |

## Left out

- Sockets, name resolution, file system calls and the inside of the lock-free queue: only their outcomes are modelled.
- JSON and TOML parsing, Kraken wire parsing and classification, the REST and WebSocket clients: thin layers over libraries outside the repository.
- Signing, base64, nonces and credentials of the logon; endpoints, configuration, command line, symbol selection.
- Decimal-to-integer scaling with doubles (src/order_book/instrument_scale.h): a partial function parameter.
- Hash collisions of order ids: ids are abstract.
- The L1 book, matching policy, staleness watchdog, reconnect delay and the runner: one-branch or one-line facts.
- BookAdapters.BookAdapter.OnFrame: does not model the catch of an exception thrown while a book applies a message (src/book_adapter/book_adapter.cpp:230-240, 296-306), because the books' own lookups are proved safe and only a failed allocation is left to throw.
- Logging, timing counters and report printing: they decide nothing the properties speak of.
- The adapter keeps one map of books per connection where the source keeps one per exchange: a connection has one exchange for life.
- The threaded session's destructor and the Stop event of the journal thread: they close the file and announce nothing.
- Weak memory: with it a frame's wakeup (not a control event's) may be missed and wait out the idle poll, which src/feed_handler/journal_thread.h accepts.
- FixMessages.BuildMessage: the overload with a session header is modelled by DeribitSessions.FixSession.Send; the UTC timestamp text is a parameter.
- LiveBooks.LiveDeribitReady: speaks of the unsequenced book the adapter uses for Deribit FIX; the sequenced book's chain is proved in L2Books.ReadyIsUnbroken, outside the adapter.
