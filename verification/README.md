# Verified model of the market-data engine

A Dafny model of the engine from end to end: the feed generator, the binary codec, the streaming parser
and its reassembly buffer, the sequence filter, the limit order book, replay, and the three-thread pipeline
over lock-free rings. `dafny verify dfyconfig.toml` checks all of it.

## How it is built

Each layer has a specification on plain values, and the form the program itself has, proved equal to it.

- `Protocol`, `ByteOrder`, `Serialization`: message types, byte loops and the codec. A side is carried as
  its raw byte, since decoders do not check it and the book takes everything but Buy as the ask side.
  `WireLayout` gives the format in literals, and encoder and parser both meet it.
- `Ordered`, `FlatBook`: one order book as a single list of orders in time priority. A level's queue is the
  sublist of one side and price. `BookLevels` relates that list to price levels with cached 32-bit totals,
  queue nodes and the id locator; `OrderBook` is the class that keeps them in step. A list iterator is a
  handle of a node; that other handles survive an insertion or erasure is proved, not assumed.
- `TimePriority`: first in, first out over whole runs, and which mutations can reorder two orders at a level.
  `Shown`: views, quotes and snapshots against the resting orders.
- `BookBuilder`, `SequenceTracker`, `Parser`, `FeedHandler`, `FeedLaws`, `EventLaws`, `Replay`: the path from bytes
  to books. `Parsing.FullDecode` is the reference decoding that skips 16 bytes at an undecodable header.
- `SpscQueue`, `SpscRing`: the ring as a class and as a step system. `try_push` and `try_pop` are split into
  load, check, slot access and publish; an acquire load returns any stored value not older than the last
  one that thread has read.
- `FrameTally`, `Pipeline`, `PipelineTicks`, `PipelineProgress`, `Fingerprint`: the three threads over two such rings. The done
  flags are atomics with the same freedom: a raised flag may be missed until it has been seen once, and
  seeing it makes everything published before it visible. Books are emitted in any order.
  `PipelineTicks` reads the ticks offered and refused off a run from outside.
- `Simulator`, `SimulatorLaws`, `MarketSimulator`, `GeneratorLaws`, `EndToEnd`, `FullChain`: the generator, with every
  random draw an arbitrary choice in its range, its invariant, its class, what each message is, and the chains
  from generator to books.

## Results worth knowing

- That chunking does not matter is false: `Parsing.ChunkingMatters` is an input. The exact condition,
  `Parsing.Quiet`, can be checked by walking headers: an undecodable header after the complete frames may be
  followed by neither a complete frame nor another undecodable header (`Parsing.ChunkingIrrelevant`).
  `Parsing.Reassembly` is the law that always holds.
- The sequence filter forwards the strict left-to-right maxima exactly when 2^32 - 1 occurs nowhere but in
  last place (`SequenceTracking.ForwardedAreMaxima`): accepting it wraps the expected number to zero, after
  which even 0 is forwarded (`SequenceTracking.WrapForwardsStale`).
- The pipeline ends in every fair run, not only in favourable ones (`PipelineProgress.FairRunsEnd`).
- The pipeline and timed replay count fewer malformed frames than a bulk `consume`, by exactly the amounts in
  `Pipelines.EveryInterleavingIsConsume` and `Replaying.SpeedIndependence`.
- The end-to-end results ask of the generator's configuration what `SimulatorLaws.GoodSim` says: a positive
  tick, reference prices of at least a tick, non-empty draw ranges, quantities of at least one, messages
  times the greatest quantity below 2^32, prices within 64 bits.

Where comments and code disagree, the model follows the code. include/mdfh/feed_handler.hpp:55 calls a
truncated datagram malformed; the code drops the cut-off message and reports nothing
(`FeedLaws.TruncatedDatagram`, `FeedLaws.DatagramMalformed`).
include/mdfh/book_builder.hpp:51 describes `rejected` as unknown ids; it also counts adds of zero quantity or of
an id already resting. `needs_more` is not set for a tail shorter than a header.
include/mdfh/pipeline.hpp:108 speaks of sampling one symbol; the code offers a tick for every book
(`PipelineTicks.EveryRoundOffered`).

## Model

| member | source | states |
|---|---|---|
| `Pipelines.EveryInterleavingIsConsume` | include/mdfh/pipeline.hpp:77-146 | for every buffer and every interleaving of the three threads, once all have ended, books, sequence state, forwarded, dropped, event counters and message count are those of one `consume` by a fresh handler; its malformed count is the pipeline's plus the skipped frames plus one if the walk stopped at an undecodable header |
| `Pipelines.NothingLeftBehind` | include/mdfh/pipeline.hpp:77-140 | the book thread leaves its loop only after popping and applying every frame ingestion pushed, which are the frames of at most 144 bytes in order; analytics ends only after counting every tick whose push succeeded |
| `PipelineProgress.FairRunsEnd` | include/mdfh/pipeline.hpp:77-146 | every infinite run in which each thread keeps being scheduled and stale loads stop at some point ends all three threads, with the result of one `consume` |
| `PipelineProgress.NeverBlocked` | include/mdfh/pipeline.hpp:77-140 | a thread that has not ended can always take its next step |
| `PipelineProgress.StepHelpsOrIdles` | include/mdfh/pipeline.hpp:77-140 | no step that reads the latest values raises a lexicographic measure, and every such step of the awaited thread lowers it |
| `PipelineProgress.CanFinish` | include/mdfh/pipeline.hpp:77-140 | no deadlock: any run so far extends to one in which all three threads have ended |
| `PipelineProgress.SomeThreadMoves` | include/mdfh/pipeline.hpp:77-140 | in every unfinished state some thread has a step that lowers a lexicographic measure |
| `PipelineProgress.DrainMoves` | include/mdfh/pipeline.hpp:102-118 | with an item to pop or a raised flag, a drain loop that reads the latest values gets closer to an item or to its end |
| `PipelineProgress.IngestMoves` | include/mdfh/pipeline.hpp:77-92 | ingestion lowers the measure whenever the book thread waits at an empty ring |
| `PipelineProgress.BookMovesOn` | include/mdfh/pipeline.hpp:96-118 | the draining book thread lowers the measure unless it waits for ingestion |
| `PipelineProgress.BookIdles` | include/mdfh/pipeline.hpp:96-118 | while it waits for ingestion its loop leaves the measure alone |
| `PipelineProgress.IngestIdles` | include/mdfh/pipeline.hpp:77-92 | while another thread is awaited ingestion, retries included, never raises the measure |
| `PipelineProgress.BookEmits` | include/mdfh/pipeline.hpp:156-164 | emitting ticks never blocks: a full ring drops the tick and the next is tried |
| `PipelineProgress.AnalyticsMoves` | include/mdfh/pipeline.hpp:127-140 | analytics lowers the measure once the book thread has ended |
| `PipelineProgress.AnalyticsIdles` | include/mdfh/pipeline.hpp:127-140 | before that it never raises it |
| `FullChain.GeneratorThroughPipeline` | include/mdfh/pipeline.hpp:77-146 | for every generator run, ring configuration and interleaving over the encoded messages, the ended pipeline's books hold exactly the live orders, uncrossed; all messages forwarded, none rejected, dropped or malformed |
| `Pipelines.EndedAgrees` | include/mdfh/pipeline.hpp:77-146 | any ended state in order agrees with one `consume` of the buffer |
| `Pipelines.DrainNextOk` | include/mdfh/pipeline.hpp:102-118 | a drain loop ends only if an index load that covers everything pushed says empty; hands over each popped item once |
| `Pipelines.IngestStepOk` | include/mdfh/pipeline.hpp:77-92 | pushed frames followed by the short frames still ahead are always the short frames of the buffer, through skips, retries and backpressure |
| `Pipelines.BookStepOk` | include/mdfh/pipeline.hpp:96-124 | the book thread's state is always the fold of `consume_datagram` over the frames it has taken, in ring order; which rounds of ticks it begins is `PipelineTicks.EveryRoundOffered` |
| `Pipelines.AnalyticsStepOk` | include/mdfh/pipeline.hpp:127-140 | the event count is always the number of ticks taken |
| `Pipelines.ReachableOk` | include/mdfh/pipeline.hpp:67-146 | ring, ingestion, book and analytics invariants hold in every reachable state |
| `Pipelines.PayloadOfFrame` | include/mdfh/pipeline.hpp:37-40 | the padded frame block gives back the bytes copied into it |
| `FrameTallies.TallyIsConsume` | include/mdfh/pipeline.hpp:77-108 | consuming the short frames one datagram at a time against one `consume` of the buffer: equal but for the malformed counts, whose difference is given exactly |
| `FrameTallies.SkippingLoses` | include/mdfh/pipeline.hpp:84 | skipping over-long frames loses their malformed notices and nothing else |
| `FrameTallies.LongFrame` | include/mdfh/pipeline.hpp:84 | every complete frame of more than 144 bytes is malformed |
| `FrameTallies.TallyIsDelivery` | include/mdfh/feed_handler.hpp:56-61 | a run of one-frame datagrams delivers exactly the items of the frames and counts them |
| `Pipelines.TickShowsTop` | include/mdfh/pipeline.hpp:156-164 | a tick carries its symbol and quotes the highest bid and lowest ask among the book's orders, 0 for an empty side |
| `PipelineTicks.EveryRoundOffered` | include/mdfh/pipeline.hpp:99-124 | in every ended run a round of ticks has been offered after exactly the frame counts that are multiples of `analytics_every`, and one more after the last frame; each round quotes every symbol of the books at that count once; nothing else was offered, and the rounds came in turn |
| `PipelineTicks.EveryTickAccounted` | include/mdfh/pipeline.hpp:126-164 | `analytics_events` and the refused ticks add up to the ticks offered; with a book at the end it is at least one; every tick pushed quotes the highest bid and lowest ask of its symbol's orders after a frame count at which a round was due |
| `PipelineTicks.StepKeepsTicks` | include/mdfh/pipeline.hpp:99-164 | every step of the pipeline keeps the account of rounds begun, ticks still to offer, pushes under way and refusals |
| `PipelineTicks.RefusedWhenFull` | include/mdfh/spsc_queue.hpp:39-46 | a tick is refused only when earlier ones have been pushed |
| `PipelineTicks.RoundCovers` | include/mdfh/pipeline.hpp:156-164 | one round lists each symbol of the books once with its best quotes |
| `Fingerprints.VisitingOrderIrrelevant` | src/replay.cpp:60-87 | the fingerprint does not depend on the order in which the books are visited |
| `Fingerprints.PipelineFingerprint` | include/mdfh/pipeline.hpp:120-122 | every interleaving ends with the fingerprint of the single-threaded path |
| `Fingerprints.BookFingerprint` | src/replay.cpp:60-87 | the accumulating loop computes the 64-bit sum of the per-book hashes |
| `Fingerprints.HashBook` | src/replay.cpp:63-84 | one book's hash, which `Fingerprints.HashIsFnv` spells out |
| `Fingerprints.HashIsFnv` | src/replay.cpp:63-84 | the hash is FNV, constants written out, over symbol, number of bid prices, of ask prices, of orders, then price, quantity and count of the best bid and of the best ask where there is one |
| `Fingerprints.XorBits` | src/replay.cpp:67-70 | the exclusive or of the hash, bit by bit |
| `SpscRings.EveryRunIsFifo` | include/mdfh/spsc_queue.hpp:39-59 | in every interleaving of the split steps, with stale but monotone loads: popped items followed by those in the ring are the pushed items in order, and at most capacity - 1 are held |
| `SpscRings.SlotsApart` | include/mdfh/spsc_queue.hpp:39-54 | the producer never writes the slot of an unreleased item; each side's slot access is covered by an index value it has acquired |
| `SpscRings.PushFailsIffFull` | include/mdfh/spsc_queue.hpp:40-42 | a push fails exactly when the ring was full at the tail value read |
| `SpscRings.PopFailsIffEmpty` | include/mdfh/spsc_queue.hpp:49-50 | a pop fails exactly when the ring was empty at the head value read |
| `SpscRings.SeesEmpty` | include/mdfh/spsc_queue.hpp:56-59 | `empty()` is true exactly when the ring was empty at the head value read |
| `SpscRings.ProduceKeepsOk` | include/mdfh/spsc_queue.hpp:39-46 | every step inside `try_push` keeps the ring invariant |
| `SpscRings.ConsumeKeepsOk` | include/mdfh/spsc_queue.hpp:48-54 | every step inside `try_pop` keeps the ring invariant |
| `SpscRings.FirstInFirstOut` | include/mdfh/spsc_queue.hpp:39-54 | the invariant means first in, first out, and bounds what is held |
| `SpscQueues.RoundUpPow2` | include/mdfh/spsc_queue.hpp:64-68 | the result is the least power of two not below the argument |
| `SpscQueues.MaskWraps` | include/mdfh/spsc_queue.hpp:41 | masking with capacity - 1 wraps a position into the ring |
| `SpscQueues.SlotsDiffer` | include/mdfh/spsc_queue.hpp:39-54 | positions less than a lap apart never share a slot |
| `SpscQueues.SPSCQueue.constructor` | include/mdfh/spsc_queue.hpp:31-34 | empty, with the least power-of-two slot count for the request |
| `SpscQueues.SPSCQueue.TryPush` | include/mdfh/spsc_queue.hpp:39-46 | appends unless capacity - 1 items are held |
| `SpscQueues.SPSCQueue.TryPop` | include/mdfh/spsc_queue.hpp:48-54 | removes and returns the oldest item, or nothing if empty |
| `SpscQueues.SPSCQueue.Empty` | include/mdfh/spsc_queue.hpp:56-59 | true exactly when nothing is held |
| `EndToEnd.GeneratorToBooks` | src/simulator.cpp:81-190 | for every generator run and every chunking of its encoded messages, each book ends with exactly the live orders (id, side, price, quantity) and uncrossed, and there are no other books; rejected, dropped and malformed are 0 and no byte is pending |
| `EndToEnd.UncrossedMarket` | src/simulator.cpp:59-79 | in every reachable state bid levels are at least one tick, ask levels at least two, every bid is below every ask, and so is the book |
| `EndToEnd.ExactAggregates` | src/simulator.cpp:15-47 | in every reachable state depth maps hold exactly the live quantity per price with no zero levels, live orders are the book's orders, and `live_ids` and `index` are inverse |
| `EndToEnd.SnapshotAgreement` | src/simulator.cpp:138-150 | each snapshot message shows the book built from the messages before it: on either side the best five prices among its orders, best first, with the summed quantities modulo 2^32, the rest zero |
| `EndToEnd.WireIsTransparent` | include/mdfh/feed_handler.hpp:34-52 | any messages that fit, encoded and cut into any chunks, leave the handler as if delivered one by one, with no byte pending |
| `EndToEnd.StaleBytesAreHarmless` | include/mdfh/feed_handler.hpp:34-104 | a stale message inserted anywhere in the byte stream, under any chunking, changes no book |
| `EndToEnd.ReplayedBytes` | include/mdfh/feed_handler.hpp:34-104 | sending the whole byte stream twice, under any chunking, changes no book |
| `EndToEnd.InOrderDelivery` | include/mdfh/feed_handler.hpp:92-104 | a stream numbered 1, 2, 3, ... is forwarded whole |
| `EndToEnd.RunMirrors` | src/simulator.cpp:152-190 | the invariant tying generator state to the book of its own messages holds in every run |
| `EndToEnd.NextMirrors` | src/simulator.cpp:152-190 | one call of `next` keeps that invariant |
| `SimulatorLaws.ChosenPriceIsPassive` | src/simulator.cpp:59-79 | whatever is drawn, the chosen price crosses no resting order, clamp included, and stays within the stated bounds; which price it is, `SimulatorLaws.ChosenPriceIs` says |
| `SimulatorLaws.ChosenPriceIs` | src/simulator.cpp:59-79 | draw 0 gives a bid the greatest price at most a tick above every resting bid and at least a tick below every ask (below the reference price without asks), draw k that price less k ticks but at least one tick; asks are the mirror image without the clamp |
| `GeneratorLaws.EveryMessageExplained` | src/simulator.cpp:81-190 | message k of every run has number k + 1, its wrapped timestamp, and the body its draws call for: heartbeat when due, else snapshot when due, else the drawn action for the drawn symbol, with the price of `ChosenPriceIs` over the book of the messages before it, the drawn quantity or fill, the resting order's price and the opposite side for trades, and ids numbered by the adds |
| `GeneratorLaws.OrderMessageActs` | src/simulator.cpp:81-136 | the same for one order message: which of the four actions is taken, fallback add included, and every field of it |
| `Simulators.AnyOrderMayBePicked` | src/simulator.cpp:49-52 | every live order is drawn by some draw |
| `SimulatorLaws.AddOk` | src/simulator.cpp:81-91 | an add is accepted by the mirrored book and keeps the agreement |
| `SimulatorLaws.CancelOk` | src/simulator.cpp:93-100 | a cancel names a resting order and keeps the agreement |
| `SimulatorLaws.ModifyOk` | src/simulator.cpp:102-117 | a modify is accepted, whether it keeps or loses priority, and keeps the agreement |
| `SimulatorLaws.TradeOk` | src/simulator.cpp:119-136 | a trade fills a resting order partly or wholly and keeps the agreement |
| `SimulatorLaws.OrderMessageOk` | src/simulator.cpp:171-186 | whichever action is drawn, fallback add included, the message is accepted, fits the wire and keeps the agreement |
| `SimulatorLaws.SnapshotAgrees` | src/simulator.cpp:138-150 | a symbol's snapshot shows the orders of its book, bids as bids and asks as asks, and fits the wire |
| `SimulatorLaws.DepthOfInsertion` | src/simulator.cpp:15-17 | adding depth follows one more order in the book, without wrapping |
| `SimulatorLaws.DepthOfDeletion` | src/simulator.cpp:19-25 | removing an order's depth erases the level exactly when its queue becomes empty |
| `SimulatorLaws.DepthOfReduction` | src/simulator.cpp:131-134 | removing a partial fill keeps the level and its exact sum |
| `Simulators.UnregisteredLive` | src/simulator.cpp:35-47 | swap-remove keeps `live_ids` and `index` inverse over the keys of `orders` |
| `Simulators.RegisteredLive` | src/simulator.cpp:27-33 | registering an unused id keeps `live_ids` and `index` inverse |
| `Simulators.OrderMessageLive` | src/simulator.cpp:171-186 | every order message keeps `live_ids` and `index` inverse |
| `Simulators.ProducedOk` | src/simulator.cpp:152-190 | ids stay indexed and the next order id unused while messages remain |
| `Simulators.PickedId` | src/simulator.cpp:49-52 | the id drawn is a live order's |
| `MarketSimulators.Symbol.AddDepth` | src/simulator.cpp:15-17 | the depth of one side and price grows, in 32 bits |
| `MarketSimulators.Symbol.RemoveDepth` | src/simulator.cpp:19-25 | the depth shrinks, or the level goes |
| `MarketSimulators.Symbol.RegisterOrder` | src/simulator.cpp:27-33 | the registered state; `live_ids` and `index` stay inverse for an unused id |
| `MarketSimulators.Symbol.UnregisterOrder` | src/simulator.cpp:35-47 | the state after swap-remove; `live_ids` and `index` stay inverse |
| `MarketSimulators.Symbol.ChoosePrice` | src/simulator.cpp:59-79 | the price that `SimulatorLaws.ChosenPriceIs` determines from the resting orders and the draw |
| `MarketSimulators.Symbol.AddMessage` | src/simulator.cpp:81-91 | message and new state are those `SimulatorLaws.AddOk` shows accepted and uncrossed |
| `MarketSimulators.Symbol.CancelMessage` | src/simulator.cpp:93-100 | message and new state are those of `SimulatorLaws.CancelOk` |
| `MarketSimulators.Symbol.ModifyMessage` | src/simulator.cpp:102-117 | message and new state are those of `SimulatorLaws.ModifyOk`, with the old depth removed before the price is chosen |
| `MarketSimulators.Symbol.TradeMessage` | src/simulator.cpp:119-136 | message and new state are those of `SimulatorLaws.TradeOk`, wholly or partly filled |
| `MarketSimulators.Symbol.OrderBody` | src/simulator.cpp:171-186 | the drawn action, or an add when nothing is live; `live_ids` and `index` stay inverse and no id but the given one appears |
| `MarketSimulators.Symbol.FillSide` | src/simulator.cpp:142-148 | the five best prices of a depth map, best first, with their quantities, the rest zero |
| `MarketSimulators.Symbol.MakeSnapshot` | src/simulator.cpp:138-150 | bids of the bid depth, asks of the ask depth: the five best of each, best first, the rest zero |
| `MarketSimulators.MarketSimulator.constructor` | src/simulator.cpp:7-13 | for any configuration, the initial state with one reference price per symbol |
| `MarketSimulators.MarketSimulator.Next` | src/simulator.cpp:152-190 | one message and the new state, or none when all have been produced; every symbol stays indexed |
| `MarketSimulators.MarketSimulator.Run` | include/mdfh/simulator.hpp:68-74 | from any state, loops on `next` until it produces nothing: exactly the remaining messages and the state after them |
| `Parsing.Reassembly` | include/mdfh/feed_handler.hpp:34-52 | for every chunking: items emitted so far followed by the full decode of the residual are the full decode of all bytes received |
| `Parsing.ChunkingIrrelevant` | include/mdfh/feed_handler.hpp:34-52 | every chunking emits what one pass emits if and only if an undecodable header after the complete frames is followed by neither a complete frame nor another undecodable header |
| `Parsing.ChunkingMatters` | include/mdfh/feed_handler.hpp:34-52 | thirty-two bytes of 255: one malformed notice at once, two in halves |
| `Parsing.QuietIsSettled` | include/mdfh/parser.hpp:45-60 | that condition, a walk over headers, is that one pass leaves nothing decodable; where the parser stops |
| `Parsing.QuietIfNeverStopped` | include/mdfh/parser.hpp:45-51 | chunking does not matter when no undecodable header stands at a frame boundary |
| `Parsing.DecodeSplit` | include/mdfh/parser.hpp:39-76 | parsing a prefix, then its leftover with the rest, loses and invents nothing |
| `Parsing.ParseSplit` | include/mdfh/parser.hpp:39-76 | parsing in two pieces is parsing at once unless the first piece stopped |
| `Parsing.Leftover` | include/mdfh/parser.hpp:56-60 | the parser leaves only bytes it must wait on, unless it stopped; when it asks for more |
| `Parsing.FrontStable` | include/mdfh/parser.hpp:42-68 | a complete frame reads the same whatever follows |
| `Parsing.StreamRoundTrip` | include/mdfh/serialization.hpp:21-184 | parsing the encodings of any messages dispatches exactly those, with their sequences and timestamps, consumes every byte, reports nothing malformed |
| `Parsing.ChunkedRoundTrip` | include/mdfh/feed_handler.hpp:34-52 | bytes of encoded messages arriving in arbitrary chunks emit exactly those messages and leave nothing pending |
| `Parsing.ParseIsFrames` | include/mdfh/parser.hpp:39-76 | one pass is the frame walk plus one malformed notice exactly if it stopped |
| `Parsing.FrameAlone` | include/mdfh/parser.hpp:53-72 | a complete frame parsed alone gives its one item |
| `FeedHandling.FeedHandler.ParseBuffer` | include/mdfh/parser.hpp:39-76 | the parse loop delivers exactly the items of the specification and returns its counts |
| `FeedHandling.FeedHandler.Dispatch` | include/mdfh/parser.hpp:79-117 | a well-formed frame is decoded and delivered as its message |
| `FeedHandling.FeedHandler.Consume` | include/mdfh/feed_handler.hpp:34-52 | both branches, with or without residual, have the same effect |
| `FeedHandling.FeedHandler.ConsumeDatagram` | include/mdfh/feed_handler.hpp:56-61 | parses without touching the residual |
| `FeedHandling.FeedHandler.Accept` | include/mdfh/feed_handler.hpp:92-104 | forwards in-order and gap, drops the rest, counts each |
| `FeedHandling.FeedHandler.OnEvent` | include/mdfh/feed_handler.hpp:64-81 | an accepted event reaches the builder, any other leaves it alone |
| `FeedHandling.FeedHandler.OnMalformed` | include/mdfh/feed_handler.hpp:82 | passed on to the builder |
| `FeedLaws.Accounting` | include/mdfh/feed_handler.hpp:34-114 | over any run of stream and datagram calls: messages = forwarded + dropped = observed; forwarded = the six event counters; the malformed counts agree |
| `FeedLaws.BytesBalance` | include/mdfh/feed_handler.hpp:34-52 | on the stream path bytes received are bytes consumed plus bytes pending |
| `FeedLaws.TruncatedDatagram` | include/mdfh/feed_handler.hpp:54-61 | whole frames followed by a cut-off message have the effect and the counts of the whole frames alone |
| `FeedLaws.DatagramMalformed` | include/mdfh/feed_handler.hpp:54-61 | a datagram's malformed count is that of its complete frames, plus one exactly if an undecodable header follows them |
| `FeedLaws.CutShort` | include/mdfh/feed_handler.hpp:54-61 | one byte of a message, not counted malformed |
| `FeedLaws.BooksFromRecords` | include/mdfh/feed_handler.hpp:92-104 | below 2^32 - 1 the books are built from exactly the strict left-to-right maxima of the sequence numbers |
| `FeedLaws.StaleIsHarmless` | include/mdfh/feed_handler.hpp:92-104 | inserting a stale message anywhere leaves every book unchanged |
| `FeedLaws.ReplayedTwice` | include/mdfh/feed_handler.hpp:92-104 | replaying the whole stream after itself leaves every book unchanged |
| `FeedLaws.StreamedIsDelivery` | include/mdfh/feed_handler.hpp:34-52 | a stream run delivers the emitted items, keeps the residual, sums the malformed counts |
| `SequenceTracking.ForwardedAreMaxima` | include/mdfh/sequence_tracker.hpp:35-63 | forwarded numbers are the strict left-to-right maxima if and only if 2^32 - 1 occurs nowhere but last |
| `SequenceTracking.WrapForwardsStale` | include/mdfh/sequence_tracker.hpp:45-53 | observing 2^32 - 1 and then 0 forwards both |
| `SequenceTracking.AcceptsIffExceeds` | include/mdfh/sequence_tracker.hpp:35-63 | a number is accepted exactly if it exceeds all before it |
| `SequenceTracking.GapAccounting` | include/mdfh/sequence_tracker.hpp:35-63 | in every run, wraparound included: first + accepted + missing = next expected + 2^32 per accepted 2^32 - 1 |
| `SequenceTracking.MissingCountsGaps` | include/mdfh/sequence_tracker.hpp:49-53 | without wraparound `missing` is the number of values from the first to the next expected never accepted |
| `SequenceTracking.AfterInvariant` | include/mdfh/sequence_tracker.hpp:35-63 | what the tracker's fields say about the run so far |
| `SequenceTracking.StatusByNumbers` | include/mdfh/sequence_tracker.hpp:35-63 | after any numbers: in order when first or one more, in 32 bits, than the last accepted; a gap when greater; else a duplicate exactly if it repeats the number just before it, and out of order otherwise |
| `SequenceTracking.StatsByStatus` | include/mdfh/sequence_tracker.hpp:24-31 | each statistic is the number of observations with its status, and `missing` adds up the jumps of the gaps |
| `SequenceTracking.SequenceTracker.Observe` | include/mdfh/sequence_tracker.hpp:35-63 | status and new state of one observation |
| `ByteOrder.LoadAfterStore` | include/mdfh/byte_order.hpp:37-60 | a load after a store of a value that fits gives the value |
| `ByteOrder.StoreAfterLoad` | include/mdfh/byte_order.hpp:37-60 | a store after a load gives the bytes |
| `ByteOrder.SignedAfterUnsigned` | include/mdfh/byte_order.hpp:37-60 | a 64-bit price survives the two's complement detour |
| `ByteOrder.StoreLe` | include/mdfh/byte_order.hpp:37-47 | the loop writes exactly the little-endian bytes and nothing else |
| `ByteOrder.LoadLe` | include/mdfh/byte_order.hpp:51-60 | the loop computes the number of the bytes |
| `Serialization.HeaderRoundTrip` | include/mdfh/serialization.hpp:21-46 | decoding an encoded header gives its fields; the bytes themselves are those of `WireLayout.EncodedInNumbers` |
| `Serialization.BodyRoundTrip` | include/mdfh/serialization.hpp:50-184 | decoding an encoded body gives the body, for all six types |
| `Serialization.BytesRoundTrip` | include/mdfh/serialization.hpp:50-184 | re-encoding a decoded body gives its bytes, for snapshots exactly when the reserved bytes are zero |
| `Serialization.FrameBytesRoundTrip` | include/mdfh/serialization.hpp:21-184 | re-encoding a well-formed frame gives the frame, for snapshots exactly when the reserved bytes are zero |
| `Serialization.DecodedBodyFits` | include/mdfh/serialization.hpp:121-184 | a decoded body is within its field widths |
| `WireLayout.EncodedInNumbers` | include/mdfh/serialization.hpp:21-115 | every message that fits is written with type code 0 to 5 at byte 0, version 1, body size 0, 25, 12, 24, 25 or 128, and each header and body field little-endian at its offset, all as literals; reserved bytes zero |
| `WireLayout.DecodedInNumbers` | include/mdfh/parser.hpp:53-117 | a frame the parser takes whole carries, in that layout, exactly the message dispatched |
| `WireLayout.FrontInNumbers` | include/mdfh/parser.hpp:42-72 | when the parser waits, gives up, takes a frame or calls it malformed, from the header bytes as numbers |
| `WireLayout.HeaderInNumbers` | include/mdfh/serialization.hpp:34-46 | the five header fields at bytes 0, 1, 2, 4 and 8; a type above 5 is refused |
| `WireLayout.OneMessage` | include/mdfh/serialization.hpp:50-184 | a frame in that layout carries one message only |
| `WireLayout.CancelFrame` | include/mdfh/parser.hpp:53-117 | a 28-byte frame starting 2, 1, 12, 0 is the cancel of the order at bytes 20 to 27 |
| `WireLayout.FieldsInNumbers` | include/mdfh/byte_order.hpp:51-60 | fields of one, two and four bytes are the sums of their bytes times powers of 256 |
| `WireLayout.ShortInNumbers` | include/mdfh/pipeline.hpp:84 | the frames ingestion passes on are those of at most 144 bytes |
| `Serialization.WriteHeader` | include/mdfh/serialization.hpp:21-30 | in place: the sixteen header bytes, which `WireLayout.EncodedInNumbers` gives one by one, nothing beyond |
| `Serialization.WriteSnapshot` | include/mdfh/serialization.hpp:78-91 | in place: the snapshot body, nothing beyond |
| `Serialization.WriteBody` | include/mdfh/serialization.hpp:50-93 | in place: the body of any type, nothing beyond |
| `Serialization.WriteMessage` | include/mdfh/serialization.hpp:106-115 | header and body, or nothing and 0 when the buffer is too small |
| `Serialization.ReadHeader` | include/mdfh/serialization.hpp:34-46 | rejects short buffers and unknown types, else reads all fields; `WireLayout.HeaderInNumbers` gives their offsets |
| `Serialization.ReadLevels` | include/mdfh/serialization.hpp:168-178 | reads five levels at stepped offsets |
| `Serialization.ReadBody` | include/mdfh/serialization.hpp:121-184 | fails exactly when too short, else decodes |
| `OrderBooks.OrderBook.Add` | src/order_book.cpp:35-44 | levels, cached 32-bit totals and locator follow the flat priority list; a duplicate id or zero quantity changes nothing and returns false. That the order is then last in its queue is `TimePriority.PlacedLast` |
| `OrderBooks.OrderBook.Cancel` | src/order_book.cpp:46-54 | a resting order leaves its queue, its level if it was the last there, and the locator, as in the flat list; an unknown id changes nothing and returns false |
| `OrderBooks.OrderBook.Modify` | src/order_book.cpp:56-87 | follows the flat list: in place for a reduction at the same price, else to the back of the new level; zero quantity cancels; an unknown id changes nothing |
| `OrderBooks.OrderBook.Execute` | src/order_book.cpp:89-106 | follows the flat list: the order and its level total shrink by the fill, and the order goes at zero; an unknown id changes nothing |
| `OrderBooks.OrderBook.InsertOrder` | src/order_book.cpp:10-19 | a fresh node at the back of its level, every other handle untouched |
| `OrderBooks.OrderBook.EraseOrder` | src/order_book.cpp:22-31 | the node leaves its level, an empty level goes, other handles stay valid |
| `OrderBooks.OrderBook.ReduceOrder` | src/order_book.cpp:67-70 | node and cached total shrink together, in 32 bits |
| `OrderBooks.OrderBook.Clear` | src/order_book.cpp:187-191 | the empty book |
| `OrderBooks.OrderBook.BestLevel` | src/order_book.cpp:108-120 | the best price of the side's orders with their summed quantity and number in 32 bits, or none for an empty side |
| `OrderBooks.OrderBook.Levels` | src/order_book.cpp:127-145 | the best prices of the side's orders, best first, at most the depth asked for and none better left out, each with summed quantity and number of orders in 32 bits |
| `OrderBooks.OrderBook.Snapshot` | src/order_book.cpp:147-157 | the five best prices of the buy orders as bids and of the other orders as asks, best first, with summed quantities in 32 bits; a price is left out only when five better are shown; the rest zero |
| `OrderBooks.OrderBook.CheckInvariants` | src/order_book.cpp:159-185 | true if and only if the book is not crossed; wrapped totals included |
| `FlatBook.ApplyEffect` | include/mdfh/order_book.hpp:61-76 | each mutation without its branches: when accepted, that others are untouched, how much quantity moves, what carries the id afterwards; places in the queues are `TimePriority.FirstComeFirstServed` |
| `Shown.BookShown` | src/order_book.cpp:147-157 | the snapshot of a book's depth shows its orders, side by side and price by price |
| `Shown.TopLevelsShow` | src/order_book.cpp:127-145 | views are the best prices, best first, with quantity and count of the orders there |
| `Shown.TopAreBest` | src/order_book.cpp:127-137 | the prices listed are members in strict order, and one is left out only when enough better ones are listed |
| `FlatBook.ApplyKeepsValid` | src/order_book.cpp:35-106 | ids stay unique and no zero quantity rests |
| `FlatBook.QueueMembers` | include/mdfh/order_book.hpp:43-47 | a level's queue holds exactly the orders of its side and price |
| `FlatBook.DepthExact` | src/order_book.cpp:16-28 | a level total is exact while the sum fits 32 bits |
| `FlatBook.CrossedAtTheTop` | src/order_book.cpp:175-178 | some bid meets some ask exactly if the best ones do |
| `BookLevels.RepresentsAppend` | src/order_book.cpp:10-19 | levels, locator and nodes follow an append to the flat list |
| `BookLevels.RepresentsRemove` | src/order_book.cpp:22-31 | levels, locator and nodes follow a removal; a level exists exactly while its queue is non-empty |
| `BookLevels.RepresentsReduce` | src/order_book.cpp:66-72 | levels, locator and nodes follow a reduction in place |
| `BookLevels.LocatedOnce` | src/order_book.cpp:42-49 | each live id's handle stands in its side and price's level, where the order stands in the FIFO queue, and nowhere else there |
| `BookLevels.Locate` | src/order_book.cpp:46-49 | the locator holds exactly the live ids, with side, price and node of the order |
| `TimePriority.PriorityKeptByStep` | src/order_book.cpp:56-106 | an order ahead of another stays ahead exactly unless the mutation requeues it |
| `TimePriority.PriorityKeptByRun` | include/mdfh/order_book.hpp:70-73 | over whole runs an order stays ahead of another while both rest there and it is not requeued, whatever happens to other orders |
| `TimePriority.FirstComeFirstServed` | include/mdfh/order_book.hpp:43-76 | over every run from an empty book, of two orders at a level the one that arrived first is served first, where an order arrives when added and again when requeued |
| `TimePriority.NeverRequeuedInAddOrder` | src/order_book.cpp:10-44 | orders at a level that were never requeued stand in the order of their adds |
| `TimePriority.PlacedLast` | src/order_book.cpp:10-19 | after an accepted add or a requeueing modify every other order at that side and price is ahead of it |
| `Ordered.TopKeysBestFirst` | src/order_book.cpp:127-137 | map iteration visits strictly worse prices and misses none better |
| `BookBuilding.BookManager.Book` | include/mdfh/book_builder.hpp:17-21 | the symbol's book, empty on first use, others unchanged |
| `BookBuilding.BookManager.Find` | include/mdfh/book_builder.hpp:23-26 | the book if there is one; creates nothing |
| `BookBuilding.BookManager.CheckAllInvariants` | include/mdfh/book_builder.hpp:30-34 | true exactly when no book is crossed |
| `BookBuilding.BookBuilder.OnAddOrder` | src/book_builder.cpp:7-12 | counts an add, applies it to the symbol's book only (created if new), counts a rejection for a duplicate id or zero quantity |
| `BookBuilding.BookBuilder.OnCancelOrder` | src/book_builder.cpp:14-19 | counts a cancel, applies it to the symbol's book only, counts a rejection if the id is unknown |
| `BookBuilding.BookBuilder.OnModifyOrder` | src/book_builder.cpp:21-26 | counts a modify, applies it to the symbol's book only, counts a rejection if the id is unknown |
| `BookBuilding.BookBuilder.OnTrade` | src/book_builder.cpp:28-34 | counts a trade, executes it against the resting order in the symbol's book only, counts a rejection if the id is unknown |
| `BookBuilding.BookBuilder.OnSnapshot` | src/book_builder.cpp:36-44 | counted, no book changes |
| `BookBuilding.BookBuilder.OnHeartbeat` | src/book_builder.cpp:46 | counted, no book changes |
| `BookBuilding.BookBuilder.OnMalformed` | src/book_builder.cpp:48 | counted, no book changes |
| `BookBuilding.AppliedCounts` | src/book_builder.cpp:7-48 | each event moves exactly one event counter, a malformed notice none of them |
| `EventLaws.EventEffect` | src/book_builder.cpp:7-48 | an event touches the book of its symbol only and changes exactly the order it names, field by field; a refused one changes nothing |
| `EventLaws.CountersCount` | src/book_builder.cpp:7-48 | over any run each counter is the number of messages of its type, and `rejected` the number of mutations refused by the book at that point |
| `EventLaws.BuiltIsValid` | src/book_builder.cpp:7-34 | every book a run of events builds has unique ids and no zero quantity |
| `Replaying.SpeedIndependence` | src/replay.cpp:16-54 | bulk and timed replay reach the same books, counts and sequence statistics; malformed counts differ by exactly one if and only if the walk meets an undecodable header |
| `Replaying.ReplayCounts` | src/replay.cpp:11-58 | what a replay into a fresh handler returns in either mode: messages of the complete frames, accepted and other sequence numbers, their statistics, malformed frames; below 2^32 - 1 the books are those of the strict maxima |
| `Replaying.ReplayDriver.Replay` | src/replay.cpp:11-58 | state and result of either path are those compared by `Replaying.SpeedIndependence` |
| `Replaying.ReplayDriver.Walk` | src/replay.cpp:29-49 | the frame walk consumes exactly the complete frames, one call each |
| `Replaying.FramesEmit` | src/replay.cpp:29-49 | frame by frame leaves no residual and gives one item a frame |

## Left out

- Sockets, command-line programs, capture files, wall-clock time, pacing and sleeping: I/O around the logic modelled here; buffers are byte sequences.
- The Mersenne Twister and its distributions: draws are arbitrary choices in range, so nothing is said about seeds.
- Latency histograms and conversions of prices to floating point: display only.
- Offsets passed with a malformed notice: only the notices and their number are modelled.
- 64-bit event counters, sizes and the processed count: modelled as unbounded natural numbers. Sequence numbers, order ids, timestamps, quantities and level totals do wrap at their widths.
- Overflow of signed price arithmetic in the generator: undefined in C++; the end-to-end results assume it away by bounding prices.
- `spread`, `symbol_count`, `last_tick_` and plain getters: one expression each.
- The debug-only assertion after every mutation: `OrderBooks.OrderBook.CheckInvariants` says what it would find.
- Applying snapshots to books: the program does not.
- Injectivity of the fingerprint: it is a hash.
- Weaker memory effects on ring slots: slots are plain memory, which `SpscRings.SlotsApart` justifies.
- PipelineProgress.SomeThreadMoves: the step it finds may be a retry after a yield, when a thread has just seen a stale value; what other threads' steps do to the measure is `PipelineProgress.StepHelpsOrIdles`.
- PipelineProgress.CanFinish: some continuation ends; that every fair run does is `PipelineProgress.FairRunsEnd`.
- PipelineProgress.FairRunsEnd: takes from the hardware that stores become visible, as one turn from which no load is stale.
- MarketSimulators.MarketSimulator.Next: while messages remain, requires ranges that are not empty, as the distributions do.
- ByteOrder.LoadLe: the bitwise or of the source is an addition, since the bits joined never overlap.
- SpscQueues.RoundUpPow2: requires that the rounded size fits 64 bits, where the source would loop for ever.
- Pipelines.EveryInterleavingIsConsume: requires a tick interval above zero and ring sizes as `SpscQueues.RoundUpPow2` gives them.
