# ITCH order book: verification model

A Dafny 4.11 model of a NASDAQ TotalView-ITCH 5.0 feed handler with a single-symbol limit order book,
and of the second, independent Python implementation whose only job is to agree with it. The headline
result is the agreement itself, for every file and not for one run: `EndToEnd.CrossCheck`.

`dafny verify dfyconfig.toml` checks the whole project.

## How it is laid out

| file | module | contents |
|---|---|---|
| bytes.dfy | Bytes | integers of fixed width, big-endian arithmetic, load-and-byte-swap |
| message_table.dfy, messages.dfy | MessageTable, Messages | the 22 types and lengths, the ten decoded messages, decoders at fixed offsets, trimming |
| codec.dfy | Codec | the record builder, encoders, and the bijection between records and messages |
| wire_format.dfy | WireFormat | the wire format in letters, offsets and digits, and that the decoders read it |
| framer.dfy | Framer | what a framing of a file is, the framing loop |
| book_model.dfy | BookModel | the order book as a value, and the hypotheses on messages |
| price_levels.dfy | PriceLevels | list nodes, price levels with a doubly linked queue, the price-ordered map |
| order_book.dfy | OrderBooks | the book as a mutable object: two price maps, queues, index, `check_rep` |
| price_time_priority.dfy | PriceTimePriority | the representation invariant over runs, and what the queues mean |
| book_algebra.dfy | BookAlgebra | laws of the operations |
| conservation.dfy | Conservation | shares and orders conserved, bounds on level totals |
| reference_book.dfy, python_walk.dfy, python_replay.dfy | ReferenceBooks, PythonWalk, PythonReplay | the Python book, framing walk, census and replay |
| refinement.dfy | Refinement | the C++ book against the Python book |
| symbols.dfy, replay.dfy, projection.dfy | Symbols, Replay, Projection | symbol matching, the replay handler, filtering by locate |
| sessions.dfy | Sessions | hypotheses on whole sessions, stated over the flat book of live orders |
| census.dfy | Census | the session census |
| end_to_end.dfy | EndToEnd | both programs on one file and symbol |

The mutable parts of the program (book, levels, builder, census, handler, the Python book) are classes
whose methods are proved against functions on values; the theorems are about those functions and their
runs, and are carried back to the objects by the methods' contracts. A list iterator is a node object.
Each insertion carries a ghost arrival number, so a position stays meaningful even when two queued
orders share a reference. Asserts of the C++ code are preconditions; `Sessions.NoAssertFires` shows
that over a session they hold exactly when the session is orderly, which is said without the indexed
book. The Python model is written with its own letters and offsets, and WireFormat says in letters,
offsets and digits what the decoders read. The 64-bit level totals wrap in the model as they do in the code.

## Hypotheses

Nothing is assumed globally; each theorem names what it needs. Those on sessions (module Sessions) speak
of the records and of the flat map of live orders, not of levels, queues or index.

- valid side byte (`Messages.SideByteOk`): byte 19 of A, F and P records is `B` or `S`, for whatever
  touches a book; exactly what the decoders assert beyond the framer's guarantee
  (`Framer.DispatchIsSafeExactly`). The censuses take any file;
- orderly (`Sessions.OrderlyRecord`): no more shares are executed or cancelled than the live order has,
  and the announcing record's locate is not 0; exactly what the asserts need (`Sessions.NoAssertFires`);
- fresh references (`Sessions.FreshRecord`, and `PriceTimePriority.FreshRun` over runs of messages):
  exactly what the full representation invariant, price-time priority and the conservation of orders
  need (`Sessions.SessionFaithful`, `PriceTimePriority.RunFaithful`,
  `PriceTimePriority.PriceTimePriorityHolds`, `Conservation.OrdersConserved`). They are sufficient for
  `PriceTimePriority.BestOverRuns`, and raise the size at which totals are known to fit
  (`EndToEnd.TotalsFit`);
- records that keep the two replays together (`EndToEnd.KeepsTogether`), needed only for agreement with
  the Python book, and then exactly (`EndToEnd.AgreeExactly`); fresh references, positive shares
  (`Sessions.PositiveRecord`) and no order message with locate 0 before the symbol is announced
  (`Sessions.AttributedRecord`) are enough for that (`EndToEnd.WellFormedStaysTogether`).

## Where code and comments differ

The model follows the code in each case.

- include/itch/order_book.hpp:46 says every `on()` is a no-op until `set_locate()` has run. The filter
  compares against 0 until then, so a message whose own locate is 0 is accepted. A message is a no-op iff
  `Projection.Ignored` (`Projection.IgnoredExactly`), and a session leaves no trace before the
  announcement iff each of its messages is (`Projection.UnresolvedIgnoresExactly`);
  `EndToEnd.EarlyAddSpoils` gives the sessions on which the two programs then differ.
- include/itch/parser.hpp:48-50 says that what the framer guarantees is all that dispatch needs. The
  decoders of A, F and P also assert the side byte, which the framer does not look at:
  `Framer.FramedRecordMayBreakSideAssert` is a file that delivers such a record, and
  `Framer.DispatchIsSafeExactly` says which files do not.
- include/itch/messages.hpp:150 says an order stays on the book after an X. It leaves when nothing
  remains: `BookAlgebra.CancelKeepsOrderExactly`, `BookAlgebra.CancelAllIsDelete`.
- BENCHMARKS.md:53-55 reports equal results from one run. Orders with zero shares can break the agreement
  (`Refinement.ZeroSharesDiverge`), and so does an add that reuses a live reference at another place
  (`Refinement.ReusedReferenceDiverges`). `Refinement.StepExactly` says exactly which messages do, and `EndToEnd.AgreeExactly` which sessions.

## Model

| member | source | states |
|---|---|---|
| Bytes.LoadIsPositional | include/itch/byte_reader.hpp:21-27 | a little-endian load followed by a byte swap is the positional base-256 value, at every width |
| Bytes.LoadU48IsPositional | include/itch/byte_reader.hpp:72-77 | the zero-widened 6-byte read is the 6-byte value and is below 2^48 |
| Bytes.BigEndianDigits | include/itch/byte_reader.hpp:21-27 | the positional value is the same number read from its last byte on: 256 times the rest, plus the byte |
| Bytes.EncodeThenDecode | tests/fixtures.hpp:25-30 | decoding the shift-and-mask bytes gives the value truncated to the width |
| Bytes.DecodeThenEncode | tests/fixtures.hpp:25-30 | encoding a decoded field gives its bytes back |
| Bytes.FieldRoundTrip | include/itch/byte_reader.hpp:54-67 | on values that fit, reader and builder are inverse |
| MessageTable.TablesAgree | src/message_table.cpp:17-42 | the C++ table and the Python dictionary define the same types with the same lengths, and neither the empty type |
| Codec.RecordBuilder.BigEndian | tests/fixtures.hpp:25-30 | the loop appends exactly the big-endian bytes of the value |
| Codec.RecordBuilder.Alpha | tests/fixtures.hpp:38-43 | the loop appends the text padded with spaces and cut at the width |
| Codec.RecordBuilder.FramedBytes | tests/fixtures.hpp:49-57 | the framed record is its length truncated to 16 bits, big-endian, and then the record |
| Codec.BuildHeader | tests/fixtures.hpp:64-69 | the builder chain writes the eleven header bytes that the header decoder reads |
| Codec.EncodeThenDecodeMessage | include/itch/messages.hpp:43-278 | every message value of the ten decoded types is what its own encoding decodes to |
| Codec.DecodeThenEncodeMessage | include/itch/messages.hpp:43-278 | the fields each decoder reads tile its record: encoding the decoded message gives the record back, iff its side byte is valid |
| Codec.MpidExtendsAdd | include/itch/messages.hpp:97-110 | an F record decodes to the add its first 36 bytes are, up to the type byte |
| WireFormat.DecodesAsStandard | include/itch/messages.hpp:43-278 | every type letter goes to its own decoder, and every field of every decoded type is the big-endian integer or the bytes at its offset |
| WireFormat.OneDecoding | include/itch/messages.hpp:43-278 | those fields leave no other message: they determine what a record decodes to |
| WireFormat.LengthsByLetter | src/message_table.cpp:17-42 | which letters have which length, both ways, for all 22 types; no other type has one |
| WireFormat.LettersPickDecoders | include/itch/parser.hpp:52-72 | a record is decoded as an add iff its type is `A`, and likewise F, E, C, X, D, U, P, S and R |
| WireFormat.SidesAreLetters | include/itch/messages.hpp:22-24 | `B` is the buy side and `S` the sell side; the side assert is that byte 19 of A, F and P is one of the two |
| WireFormat.TrimTakesSpaces | include/itch/messages.hpp:28-33 | trimming takes off the trailing spaces, all of them, and nothing else |
| WireFormat.PaddingIsSpaces | tools/reference_book.py:112 | padding keeps the text and puts spaces behind it up to the width |
| Framer.SuffixTrichotomy | include/itch/framer.hpp:49-86 | the bytes left are empty, or begin with a valid record, or have exactly one of the five error classes |
| Framer.RecordsAreFraming | include/itch/framer.hpp:44-96 | the framed bytes of the delivered records are a prefix of the file, every record valid |
| Framer.RecordsAreLongest | include/itch/framer.hpp:44-96 | every framing of the file is a prefix of the delivered records: they are the unique longest one |
| Framer.OutcomeIsExact | include/itch/framer.hpp:27-35 | complete iff the framed records are the whole file; otherwise the error is the one class that holds where framing stopped, at the byte consumed; the file determines the outcome |
| Framer.OutcomeInBytes | include/itch/framer.hpp:50-86 | each error class in terms of the bytes where framing stopped, and the type byte reported with an unknown type or a wrong length, which is 0 with any other |
| Framer.FramingConcatenates | include/itch/framer.hpp:44-96 | framing a then b, when a is complete, is framing a and framing b with offsets shifted |
| Framer.FramingRoundTrip | tests/fixtures.hpp:49-57 | any valid records are exactly what the framer makes of their framed bytes |
| Framer.FramedInBytes | tests/fixtures.hpp:49-57 | a framed record is its length, high byte first, and then the record |
| Framer.FramedRecordMayBreakSideAssert | include/itch/messages.hpp:76-78 | a file framed to its end whose only record fails the decoder's side assert |
| Framer.DispatchIsSafeExactly | include/itch/parser.hpp:48-50 | every delivered record meets what its decoder asserts iff every A, F and P record of the file has a valid side byte |
| Framer.FrameTurn | include/itch/framer.hpp:50-86 | one turn's checks find the valid record at the offset, or the error class that holds there |
| Framer.FrameAll | include/itch/framer.hpp:44-96 | the loop delivers exactly those records, in order, and returns exactly that outcome |
| BookModel.LookupInsert | include/itch/order_book.hpp:122-129 | an insertion changes what the index finds for its own reference only, and not even that if it was live |
| BookModel.LookupReduce | include/itch/order_book.hpp:136-155 | a reduction changes what the index finds for its own reference only: fewer shares, or gone at zero |
| BookModel.StepCoherent | src/order_book.cpp:5-59 | any message at all keeps every level non-empty, every queue in arrival order and every index entry pointing at a queued order of its reference |
| BookModel.RunCoherent | src/order_book.cpp:5-59 | the same over any run, with no hypothesis |
| PriceLevels.PriceLevel.PushBack | include/itch/order_book.hpp:125-127 | linking a node at the tail extends the queue by it and leaves every other node in place with its shares; the total grows modulo 2^64 |
| PriceLevels.PriceLevel.Erase | include/itch/order_book.hpp:151 | unlinking a node removes it alone; every other node keeps identity, order and shares |
| PriceLevels.PriceLevel.Deduct | include/itch/order_book.hpp:145-148 | both decrements leave the queue order alone and the total equal to the queue's sum modulo 2^64 |
| PriceLevels.PriceMap.Subscript | include/itch/order_book.hpp:125 | the level at a price, or a new empty one put at its place in the comparator's order |
| PriceLevels.PriceMap.Erase | include/itch/order_book.hpp:153 | erasing a level keeps the order of the others |
| PriceLevels.AppendIn | include/itch/order_book.hpp:125-127 | inserting at one level disturbs no other level of the book |
| PriceLevels.DropIn | include/itch/order_book.hpp:151 | erasing from one level disturbs no other level of the book |
| OrderBooks.OrderBook.InsertOrder | include/itch/order_book.hpp:122-129 | maps, queue, total and index together take the step of the value model; no stored position changes |
| OrderBooks.OrderBook.ReduceOrRemoveIn | include/itch/order_book.hpp:136-155 | likewise for a reduction; both asserts hold inside, and every other stored position stays and stays valid |
| OrderBooks.OrderBook.ReduceOrRemove | src/order_book.cpp:48-59 | an unknown reference is a no-op, otherwise the reduction on the order's own side |
| OrderBooks.OrderBook.OnAdd | src/order_book.cpp:5-13 | the add step, filtered by locate and tallied |
| OrderBooks.OrderBook.OnExecuted | src/order_book.cpp:15-19 | the execution step; tallied even when the reference is unknown |
| OrderBooks.OrderBook.OnCancel | src/order_book.cpp:21-25 | the cancel step; tallied even when the reference is unknown |
| OrderBooks.OrderBook.OnDelete | src/order_book.cpp:27-31 | the delete step; tallied even when the reference is unknown |
| OrderBooks.OrderBook.OnReplace | src/order_book.cpp:33-46 | the replace step, on the original's side; not tallied when the original is unknown |
| OrderBooks.OrderBook.OnTrade | include/itch/order_book.hpp:87-89 | a trade is tallied and leaves the book alone |
| OrderBooks.OrderBook.SetLocate | include/itch/order_book.hpp:73-77 | sets the locate, and nothing else, of a book that has none |
| OrderBooks.OrderBook.BestBid | src/order_book.cpp:61-65 | the highest bid level with its 64-bit total; nothing iff there is no bid level |
| OrderBooks.OrderBook.BestAsk | src/order_book.cpp:67-71 | the lowest ask level with its 64-bit total; nothing iff there is no ask level |
| OrderBooks.OrderBook.Counts | include/itch/order_book.hpp:97-99 | the sizes of the index and of each side |
| OrderBooks.OrderBook.CheckLevel | src/order_book.cpp:78-91 | the inner loop decides whether one level agrees with its queue and the index, counting distinct entries |
| OrderBooks.OrderBook.CheckSide | src/order_book.cpp:76-94 | the outer loop decides it for a whole side |
| OrderBooks.OrderBook.CountedDecides | src/order_book.cpp:96-98 | pigeonhole: the entries visited are as many as the index has iff every entry leads to a queued order |
| OrderBooks.OrderBook.CheckRep | src/order_book.cpp:73-99 | for any contents of queues, totals and index: true iff levels and index describe each other in full, although the index is never walked |
| OrderBooks.OrderBook.RepOkInFull | src/order_book.cpp:73-99 | what check_rep accepts: no empty level, every total exact modulo 2^64, every queued order indexed where it is, every index entry leading to a queued order of its reference |
| OrderBooks.OrderBook.RepOkIsFaithful | include/itch/order_book.hpp:102-109 | on a book built by messages, what check_rep decides is that no queued order is a stray |
| PriceTimePriority.StepFaithful | src/order_book.cpp:5-59 | one message keeps the full invariant iff the reference it inserts is fresh, and none ever repairs a broken one |
| PriceTimePriority.RunFaithful | src/order_book.cpp:5-59 | a run keeps the full invariant iff all its insertions are fresh |
| PriceTimePriority.RunRefines | include/itch/order_book.hpp:122-155 | after any run the indexed book refines a flat map of live orders with a log of arrivals |
| PriceTimePriority.QueueIsLiveQueue | include/itch/order_book.hpp:16-29 | the queue at a side and price is the still-live insertions there in arrival order |
| PriceTimePriority.PriceTimePriorityHolds | src/order_book.cpp:5-46 | over every run from the empty book, all queues are the still-live insertions in arrival order iff every reference inserted was fresh |
| PriceTimePriority.BestIsBestLive | src/order_book.cpp:61-71 | the best level is the best price of any live order of the side with the sum of live shares there, and absent iff the side has no live order |
| PriceTimePriority.BestOverRuns | src/order_book.cpp:61-71 | the same after every run of fresh references from the empty book |
| BookAlgebra.ReducingMessagesCommute | src/order_book.cpp:15-31 | E, C, X and D messages on different references commute on the whole book, queue order and tallies included |
| BookAlgebra.ReductionsCompose | include/itch/order_book.hpp:145-154 | removing x and then y is removing x + y, as long as that much rests |
| BookAlgebra.CancelAllIsDelete | include/itch/order_book.hpp:145-154 | cancelling all remaining shares leaves the book a delete leaves |
| BookAlgebra.CancelKeepsOrderExactly | include/itch/messages.hpp:150 | an X of resting shares leaves its order on the book iff it cancels fewer than all of them |
| BookAlgebra.InsertDeleteRestores | include/itch/order_book.hpp:122-155 | inserting a fresh order and deleting it restores levels, queues and index |
| Conservation.SharesConserved | include/itch/order_book.hpp:122-155 | shares put in are shares resting plus shares taken out, iff the run never over-removes; otherwise the wrapped subtraction leaves shares from nowhere |
| Conservation.OrdersConserved | src/order_book.cpp:5-59 | adds are the orders resting plus those an E, C, X or D took off, iff every reference inserted over the run was fresh; otherwise there are more adds |
| Conservation.StepCount | src/order_book.cpp:5-59 | no message raises the live orders above the adds less the departures, and it keeps the balance iff its reference is fresh |
| Conservation.StepTallies | src/order_book.cpp:5-46 | which tally each message raises by one; none when the filter rejects it, none for a replace of an unknown order |
| Conservation.QueueAtMostOrders | include/itch/order_book.hpp:122-129 | a queue is no longer than the index |
| Conservation.QueueAtMostArrivals | include/itch/order_book.hpp:122-129 | a queue, stray orders included, is no longer than the number of insertions so far |
| Conservation.TotalDoesNotWrap | include/itch/order_book.hpp:28 | with at most 2^32 live orders a level's sum stays below 2^64 |
| ReferenceBooks.ApplyIsStep | tools/reference_book.py:156-181 | the script's offsets and struct formats read the fields that the C++ decoders read |
| ReferenceBooks.ReferenceBook.ReduceOrRemove | tools/reference_book.py:68-79 | the dictionary updates, with the KeyError of a missing level raised before anything is written |
| ReferenceBooks.ReferenceBook.Apply | tools/reference_book.py:156-181 | one record into the Python book, tallies and KeyErrors included |
| ReferenceBooks.ReferenceBook.Best | tools/reference_book.py:102-107 | the extreme price of a side and the total there, or nothing iff the dictionary is empty |
| Refinement.InsertExactly | tools/reference_book.py:63-66 | with any reference and shares: an insertion keeps the two books in step iff it does not fall on a live reference with another place or size |
| Refinement.ReduceExactly | tools/reference_book.py:68-79 | with any shares: a reduction raises nothing, and keeps the two books in step iff the order was alone or the level's total is not used up |
| Refinement.PositiveSameDrop | include/itch/order_book.hpp:150-154 | with positive shares, total zero and queue empty are the same in every state |
| Refinement.ReplaceExactly | tools/reference_book.py:93-100 | a replace keeps the two books in step iff the original's level is dropped alike or rested at again, and the new reference is not live elsewhere |
| Refinement.StepExactly | tools/reference_book.py:34-107 | message by message, whatever the asserts admit: the script raises nothing, and its dictionaries stay the C++ price-to-total maps iff the message meets the condition of its type |
| Refinement.PositiveStaysInStep | include/itch/order_book.hpp:150-154 | fresh references and positive queued shares meet that condition |
| Refinement.StepPositive | include/itch/order_book.hpp:122-155 | queued shares stay positive as long as inserted ones are |
| Refinement.ZeroSharesDiverge | tools/reference_book.py:74-76 | four messages with one zero-share order: the books differ after the third, and the script raises KeyError on the fourth |
| Refinement.ReusedReferenceDiverges | tools/reference_book.py:63-66 | an add that reuses a live reference at another side or price breaks the agreement: emplace keeps the old entry, the dictionary takes the new one |
| Symbols.TrimThenPad | include/itch/messages.hpp:28-33 | trimming a field and padding it back is the identity |
| Symbols.MatchersAgree | tools/reference_book.py:112 | the two handlers match the same fields iff the symbol has no trailing space or is longer than the field |
| Replay.BookReplayHandler.OnStockDirectory | tools/book_replay.cpp:25-30 | the first announcing record sets the locate, no other does; resolved iff the locate is nonzero |
| Replay.BookReplayHandler.Dispatch | include/itch/parser.hpp:52-72 | each record goes to its decoder and from there to the book or the bootstrap |
| Replay.BookReplayHandler.ParseAll | include/itch/parser.hpp:77-81 | the handler ends in the state of replaying the file's records, with the framer's outcome unchanged |
| Projection.LocateProjection | src/order_book.cpp:5-34 | once resolved, a session gives the book and tallies of the messages carrying its locate, and the locate stays |
| Projection.InterleavingIsIrrelevant | include/itch/order_book.hpp:46-50 | interleaving other symbols' streams in any way changes nothing |
| Projection.FilteredKeepsExactly | src/order_book.cpp:5-6 | the records kept are those with the locate, each as often as it occurs, and no others |
| Projection.LocateIsField | include/itch/messages.hpp:43-50 | the locate that filters is the two-byte integer at offset 1 |
| Projection.ReplayIsProjection | tools/book_replay.cpp:25-41 | a whole session: nothing before the announcement counts, and after it only that locate's records |
| Projection.IgnoredExactly | src/order_book.cpp:5-46 | a message leaves the book as it was, tallies included, iff the filter rejects it or it replaces an unknown order; an unresolved book filters by 0 |
| Projection.UnresolvedIgnoresExactly | include/itch/order_book.hpp:46-50 | records before the announcement leave no trace iff each by itself is ignored by the empty book |
| PythonWalk.WalkTurn | tools/reference_count.py:35-56 | the script's checks, in their order, find the same record as the framer or the Python error that holds |
| PythonWalk.ErrorsCorrespond | tools/reference_count.py:38-56 | where the framer has an error class the walk has exactly the corresponding one; zero length is the unknown empty type |
| PythonWalk.WalksAgree | tools/reference_count.py:33-67 | the two walks consume the same bytes of every file and fail together |
| PythonWalk.PyCensus | tools/reference_count.py:26-67 | the script's counts, event codes, total and stop are those of the file's records |
| PythonWalk.CountIsPlaces | tools/reference_count.py:58 | the count of a type is the number of places in the session that hold it |
| PythonWalk.EventsAreInOrder | tools/reference_count.py:59-60 | there is one event code for each S record, at its place among the S records |
| PythonReplay.Replay | tools/reference_book.py:110-153 | the script ends in the state of replaying the file's records, or with a KeyError when one of them raises it |
| Census.NoDescentsIffSorted | tools/itch_count.cpp:61-66 | no backwards step between neighbours iff the whole sequence is sorted |
| Census.DescentsAreSteps | tools/itch_count.cpp:61-66 | every step backwards is counted, once |
| Census.TimestampIsField | include/itch/messages.hpp:43-50 | the timestamp noted is the six-byte integer at offset 5 |
| Census.CountersSumToTotal | tools/itch_count.cpp:60-67 | the 256 counters sum to the number of records |
| Census.HeaderInBounds | tools/itch_count.cpp:45-47 | every defined record is long enough for the header read on the undecoded path, and decoding keeps the header |
| Census.SessionCensus.Note | tools/itch_count.cpp:59-68 | counters, total, first, last and backwards timestamps describe the records noted |
| Census.SessionCensus.Dispatch | tools/itch_count.cpp:31-47 | every record is noted once, S records also by event code |
| Census.SessionCensus.ParseAll | tools/itch_count.cpp:131 | the census describes exactly the file's records and counts as many as the framer |
| Census.CrossCount | tools/itch_count.cpp:164-168 | on every file, both censuses describe its records, with the same total, counts of every type, event codes and stop, and corresponding errors; the health verdict is true iff the file is framed to its last byte and its timestamps are sorted |
| Sessions.ReplayTracks | src/order_book.cpp:5-59 | after every session the replayed book is coherent and refines the flat book of live orders |
| Sessions.NoAssertFires | include/itch/order_book.hpp:140-146 | over a session the asserts of set_locate and reduce_or_remove_in hold iff the session is orderly, a condition on the flat book |
| Sessions.SessionFaithful | include/itch/order_book.hpp:102-109 | a replayed book keeps the full invariant iff every insertion of the session was fresh |
| EndToEnd.AgreeExactly | tools/reference_book.py:110-153 | over any orderly session, and with a symbol both match alike, the two replays agree after every record iff every record keeps them together |
| EndToEnd.WellFormedStaysTogether | tools/reference_book.py:110-153 | fresh references, positive shares and no early locate 0 keep them together |
| EndToEnd.EarlyAddSpoils | include/itch/order_book.hpp:46-50 | an add with locate 0 before the announcement is tallied by the C++ program and not by the script, in sessions that meet every other hypothesis |
| EndToEnd.RecordsTakeBytes | include/itch/framer.hpp:90-92 | records of types of at least some framed size take at most the bytes of the file: 38 an add, 37 an insertion |
| EndToEnd.OrdersBoundedByRecords | src/order_book.cpp:5-46 | live orders are at most the adds tallied and those at most the add records; insertions are at most the add and replace records |
| EndToEnd.TotalsCannotWrap | include/itch/order_book.hpp:127 | no file of at most 37 * 2^32 bytes, nor of 38 * 2^32 bytes with fresh references, makes a level total wrap after any of its records |
| EndToEnd.AuditedReplay | src/order_book.cpp:73-99 | check_rep after a replay returns true iff every insertion was fresh |
| EndToEnd.ReportsAgree | BENCHMARKS.md:53-55 | corresponding states are reported alike, totals modulo 2^64, and entirely alike when no total has wrapped |
| EndToEnd.BookReplay | tools/book_replay.cpp:67-100 | what the C++ program reports is what the replayed state says |
| EndToEnd.ReferenceReplay | tools/reference_book.py:190-212 | what the script reports is what its replayed state says |
| EndToEnd.CrossCheck | BENCHMARKS.md:53-55 | on every orderly session whose records keep the replays together, complete or cut short, and every symbol both match alike, each program reports its own replay of the file, the reports are the same, and both stop at the same byte; the script raises nothing |

## Left out

- Opening and mapping the file: a file is an immutable byte sequence.
- Command lines, printing, percentages, sorting for display, time-of-day formatting, error texts, throughput timing.
- Fields of the twelve types nobody decodes: only their lengths are modelled.
- The one-time fill of the C++ length table; the lookup it serves is `MessageTable.SpecLength`.
- The `--limit` option of the Python census.
- Hash table and red-black tree internals: the index is a finite map, a price map is a sorted sequence of prices with a map to levels.
- The handler concept: each handler has its own dispatch, with the same decoders.
- Python's order objects are values in a map here; none of them is ever shared, so aliasing is not at stake.
- Tallies and message counts are unbounded: a file has fewer than 2^64 bytes, so the 64-bit counters cannot wrap.
- ReduceOrRemoveIn: over-removal with asserts compiled out is not modelled, because the assert makes it the caller's error.
- Replays with invalid side bytes, which only a build with asserts compiled out survives: there both books send any byte but `B` to the asks, while check_rep compares the stored side with the ask side. The censuses, which never look at the side, are proved for every file.
