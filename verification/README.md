# Verification model of the digital-twin engine

This project models the two connected cores of the engine and one service of its web API, and proves
properties of them with Dafny 4.11. `dafny verify dfyconfig.toml` checks everything.

**The MessagePack codec** (`engine/include/external/cwpack.c`). `Items` holds the two tables: what one
unpack call makes of a byte string (`Decode`) and what one pack call writes (`Wire`). `Packer` and
`Unpacker` are the contexts as the C code runs them, byte by byte and macro by macro, proved against those
tables; `Formats` states once more, from the side of the values, which bytes encode an item and which are
refused, and proves that the tables say the same; `ByteOrder` ties the word-swapping and the byte-at-a-time macros to one big-endian field.
`Codec` proves the round trip, prefix-freeness and minimality of single items, `Streams` lifts them to
whole buffers, and `Skipping` relates the counter loop of `cw_skip_items` to recursive descent and
`cw_look_ahead` to the reader.

**The event pipeline** (`engine/src`). `Parser`, `Queue`, `Memory`, `Rules`, `Dispatcher`, `Sender` and
`ApiServer` are the stages as imperative code; `Readings` says, on the items read, what the parser and the
query server make of any buffer. `RingProtocol` is the queue shared by two threads, one load
or store at a time. `Pipeline` is a state machine over the steps of all threads with whole queue operations,
and `Runs` states what holds after every run of it, `Tracing` which dispatched event, under which rules, each
event handed on comes from, and `Progress` that messages are carried through. `Threads` puts three such rings
in the queues' places and proves that every interleaving of their loads and stores is, at the moments calls
take effect, a run of `Pipeline`, and `Realised` that every run of `Pipeline` is such an interleaving. `Numbers` compares the numbers in a message with what becomes of them. `Publication`
interleaves the stores of an update with the loads of a query and with deletions, for one twin; `Engine`
puts ten such records behind `Threads`, with the processor's single stores and the query server's single
loads, and traces every value in a reply back to a received message; `Service` runs one of its threads alone.

**The chrony configuration rewrite** (`api/src/services/ChronyService.cpp`) is `Chrony`.

## Where the code does less than its name says

Each of these is proved with its exact condition.

- An extension of type -1 shorter than 256 bytes can be packed but is not read back as an extension
  (`Codec.RoundTripExactly`).
- The 32-bit sums and products of `cw_skip_items` wrap for map sizes from 2^31 and for an extension of
  2^32 - 1 bytes; the skipper then stops too early (`Skipping.SkipNestedExactly`, `Skipping.SkipExactly`).
- `cw_look_ahead` calls a non-negative number in a signed format negative (`Skipping.LookAheadAgrees`).
- In compatibility mode strings and binaries of 32 to 255 bytes are not in their shortest form
  (`Codec.CompatMinimal`).
- The dispatcher cuts a variable identifier to 8 bits before it addresses the store, so that identifier 256
  overwrites variable 0 (`Routing.StoredWhereNamed`); the rule lookup uses all 16 bits.
- A deviation that is sent as an integer survives the trip between nodes exactly when it has at most 24
  significant bits (`Sender.ReceivedUnchanged`); the 2^39 topmost 64-bit integers round up to 2^64, which
  cannot be converted back (`Events.DeviationFits`).
- The parser reads the deviation as an unsigned integer whatever its item is. It is the number sent exactly
  when that is an integer of at most 24 significant bits, or 0.0, or one lucky number in each precision
  (1318926976.0 in single, 4886673876534165504.0 in double); for single precision these two only below
  timestamp 2^32, and above it only numbers from 2^32 on that the timestamp's upper half happens to round to
  themselves (`Numbers.DeviationExactly`). The 0.5 of
  `engine/utils_testing/python_clients/zmq_send.py:36`, sent in single precision (line 58 there) with a
  millisecond clock (line 42), becomes the timestamp with 1056964608 in place of its low 32 bits, for
  instance 1697569046528 at 1700000000000 (`Messages.HalfMisread`).
- Of a double-precision value only the low four bytes are kept, and an integer's low four bytes are stored
  where every reader takes them for a single-precision number: a value reaches the store as the number
  sent exactly when it is a finite single-precision number or zero (`Numbers.ValueExactly`).
- The sender opens five of its ten connectors; an event for another twin reaches it exactly when the rule
  table holds a notify rule for such a twin (`Runs.ReachesClosedConnector`).
- The query server does not look at the return code behind a request's head. A request of which only the head
  can be read is executed with the array's size for the operation and the identifier, so that the single byte
  0x92 deletes twin 2; one cut behind its operation is executed with the operation's number as the identifier
  (`Readings.CutAfterHead`, `Readings.OneByteDeletes`, `Readings.CutAfterOperation`; `Readings.RequestExactly` covers every buffer).
- A deletion is undone by an update that was between its value store and its status store
  (`Publication.DeletionLasts`).
- Rewriting the chrony file twice is rewriting it once exactly when the server name has no line break; with
  one, the file grows on every request (`Chrony.IdempotentExactly`, `Chrony.GrowsAgain`). The same condition
  decides whether other lines are kept and settings take effect (`Chrony.OthersKeptExactly`,
  `Chrony.SettingsExactly`).

## Model

| member | source | states |
|---|---|---|
| ByteOrder.Forms16 | engine/include/external/cwpack_internals.h:65-261 | both forms of the 16-bit store leave the big-endian bytes of the value in memory, both forms of the load compute the number those bytes denote |
| ByteOrder.Forms32 | engine/include/external/cwpack_internals.h:68-267 | the same for the 32-bit macros |
| ByteOrder.Forms64 | engine/include/external/cwpack_internals.h:75-277 | the same for the 64-bit macros |
| Bytes.LoadStore | engine/include/external/cwpack_internals.h:101-119 | a value that fits its field is loaded back unchanged after a store |
| Bytes.StoreLoad | engine/include/external/cwpack_internals.h:259-277 | any bytes are stored back unchanged after a load |
| Codec.DecodeBounds | engine/include/external/cwpack.c:465-594 | on every byte string the reader stays inside the buffer, consumes at least a byte for an item, and yields a value its C field can hold |
| Codec.DecodeExtends | engine/include/external/cwpack.c:465-594 | the decoded item does not depend on the bytes behind it |
| Codec.DecodeCut | engine/include/external/cwpack_internals.h:284-304 | an item cut anywhere inside is an underflow, so encodings are prefix-free |
| Codec.UnsignedReads | engine/include/external/cwpack.c:102-121 | every unsigned 64-bit number is read back from its five forms |
| Codec.NegativeReads | engine/include/external/cwpack.c:124-156 | every negative 64-bit number is read back from its five forms |
| Codec.SignedIsUnsigned | engine/include/external/cwpack.c:124-156 | signed and unsigned packing agree on the numbers both accept |
| Codec.StrReads | engine/include/external/cwpack.c:245-281 | every string is read back, with and without str 8 |
| Codec.BinReads | engine/include/external/cwpack.c:284-319 | every binary is read back |
| Codec.ExtReads | engine/include/external/cwpack.c:322-380 | every extension that is no short type -1 is read back with its type and bytes, from the fixed and the counted forms |
| Codec.TimeReads | engine/include/external/cwpack.c:383-426 | every timestamp with nsec below 10^9 is read back through whichever of the three forms was chosen, negative seconds and the 34-bit boundary included |
| Codec.SizeReads | engine/include/external/cwpack.c:215-242 | array and map sizes are read back |
| Codec.RealReads | engine/include/external/cwpack.c:159-176 | the bits of floats and doubles are read back |
| Codec.RoundTrip | engine/include/external/cwpack.c:102-426 | every item the packer accepts, in either mode, is read back whatever follows it (a binary as a string in compatibility mode), except sham timestamps |
| Codec.RoundTripExactly | engine/include/external/cwpack.c:322-380 | an item is read back, before any bytes, if and only if it is no extension of type -1 shorter than 256 bytes |
| Codec.Minimal | engine/include/external/cwpack.c:102-426 | the packer's encoding of an item is no longer than any bytes the reader accepts for that item |
| Codec.CompatMinimal | engine/include/external/cwpack.c:245-319 | in compatibility mode no bytes the reader accepts for what it makes of an item are shorter than the packer's, if and only if the item is no string or binary of 32 to 255 bytes |
| Formats.ReadsExactly | engine/include/external/cwpack.c:465-594 | bytes, whatever follows them, are read as an item if and only if they are one of its formats: among others each of the nine formats of a non-negative integer, the signed ones included, and the five of a negative one in two's complement |
| Formats.RefusedExactly | engine/include/external/cwpack.c:465-594 | bytes that are refused are so with the end of input if there are none, as malformed if they begin with 0xc1, for the length if they are a timestamp no format has, and with an underflow otherwise |
| Formats.WriteRefusedExactly | engine/include/external/cwpack.c:322-392 | a pack call is refused, whatever the buffer, if and only if it is for an extension or a timestamp in compatibility mode or for a timestamp with 10^9 nanoseconds or more, with the code for each |
| Streams.CutStream | engine/include/external/cwpack.c:465-594 | a stream cut anywhere yields exactly the items that end before the cut, then the end of input on a boundary and an underflow elsewhere |
| Streams.Sticky | engine/include/external/cwpack_internals.h:125-146 | after a failure further pack calls change nothing |
| Streams.PackAllResult | engine/include/external/cwpack_internals.h:125-191 | for any calls and any buffer size the buffer holds exactly the encodings of the calls before the first failure, inside its bounds, and the return code is clear if and only if there was none |
| Streams.FirstFailure | engine/include/external/cwpack_internals.h:125-191 | the code packing ends with is that of the first refused call, or the overflow code exactly because that call's bytes did not fit |
| Streams.StreamReads | engine/include/external/cwpack.c:465-594 | any list of packed items followed by any stream is read as those items followed by that stream's |
| Streams.PackThenRead | engine/include/external/cwpack.c:102-426 | packing any list into a buffer of any size and reading the buffer gives the items packed before the first failure and then the end of input |
| Packer.PackContext.constructor | engine/include/external/cwpack.c:75-85 | an empty buffer, no error, compatibility off |
| Packer.PackContext.SetCompatibility | engine/include/external/cwpack.c:87-90 | changes the mode and nothing packed |
| Packer.PackContext.ReserveSpace | engine/include/external/cwpack_internals.h:135-146 | space is handed out if and only if it ends inside the buffer; otherwise the overflow code is set and nothing moves |
| Packer.PackContext.Store16 | engine/include/external/cwpack_internals.h:101-103 | two bytes become the big-endian field, all others stay |
| Packer.PackContext.Store32 | engine/include/external/cwpack_internals.h:105-109 | the same for four bytes |
| Packer.PackContext.Store64 | engine/include/external/cwpack_internals.h:111-119 | the same for eight bytes |
| Packer.PackContext.TryMove0 | engine/include/external/cwpack_internals.h:149-155 | one byte is appended, or the overflow code is set |
| Packer.PackContext.TryMove1 | engine/include/external/cwpack_internals.h:157-164 | a tag and a one-byte field are appended, or nothing |
| Packer.PackContext.TryMove2 | engine/include/external/cwpack_internals.h:166-173 | a tag and a two-byte field are appended, or nothing |
| Packer.PackContext.TryMove4 | engine/include/external/cwpack_internals.h:175-182 | a tag and a four-byte field are appended, or nothing |
| Packer.PackContext.TryMove8 | engine/include/external/cwpack_internals.h:184-191 | a tag and an eight-byte field are appended, or nothing |
| Packer.PackContext.PackUnsigned | engine/include/external/cwpack.c:102-121 | the buffer, its fill and the return code become those of one specified pack call; nothing changes after an error |
| Packer.PackContext.PackSigned | engine/include/external/cwpack.c:124-156 | the same for signed numbers |
| Packer.PackContext.PackFloat | engine/include/external/cwpack.c:159-166 | the same for a float's bits |
| Packer.PackContext.PackDouble | engine/include/external/cwpack.c:169-176 | the same for a double's bits |
| Packer.PackContext.PackNil | engine/include/external/cwpack.c:179-185 | the same for nil |
| Packer.PackContext.PackBoolean | engine/include/external/cwpack.c:206-212 | the same for booleans |
| Packer.PackContext.PackArraySize | engine/include/external/cwpack.c:215-227 | the same for array headers |
| Packer.PackContext.PackMapSize | engine/include/external/cwpack.c:230-242 | the same for map headers |
| Packer.PackContext.PackStr | engine/include/external/cwpack.c:245-281 | the same for strings, with the mode deciding about str 8, for every 32-bit length |
| Packer.PackContext.PackBin | engine/include/external/cwpack.c:284-319 | the same for binaries of every 32-bit length, as strings in compatibility mode |
| Packer.PackContext.PackExt | engine/include/external/cwpack.c:322-380 | the same for extensions of every 32-bit length, refused in compatibility mode |
| Packer.PackContext.PackTime | engine/include/external/cwpack.c:383-426 | the same for timestamps, with the two refusals |
| Unpacker.UnpackContext.constructor | engine/include/external/cwpack.c:450-458 | the cursor at the first byte, no error, an item that holds whatever was in memory |
| Unpacker.UnpackContext.AssertSpace | engine/include/external/cwpack_internals.h:284-304 | the cursor advances if and only if the bytes are there; otherwise it stays and the given code is set |
| Unpacker.UnpackContext.GetNumber | engine/include/external/cwpack_internals.h:319-339 | the cursor, code, item and union word become those of one specified read, which `Formats.ReadsExactly` and `Readings.StoreReplaces` determine |
| Unpacker.UnpackContext.GetBlob | engine/include/external/cwpack_internals.h:309-312 | the same for strings and binaries, with the failures before and after the length |
| Unpacker.UnpackContext.GetWideExt | engine/include/external/cwpack.c:520-545 | the same for counted extensions, including the 96-bit timestamp and its length check |
| Unpacker.UnpackContext.GetFixExt | engine/include/external/cwpack_internals.h:341-367 | the same for fixed extensions, including the 32- and 64-bit timestamps |
| Unpacker.UnpackContext.Next | engine/include/external/cwpack.c:465-594 | one call does exactly one specified read, on every byte string, and nothing after an error; which item that is, `Formats.ReadsExactly` says |
| Unpacker.NextItem | engine/include/external/cwpack.c:465-594 | each call delivers the next item of the buffer's stream, and the call after the last one reports the stream's final code and leaves the union as it was |
| Readings.StoreReplaces | engine/include/external/cwpack_internals.h:309-367 | what an item leaves in the union: a boolean replaces one byte, a float and the sizes four, the other numbers all eight with the number itself, and the rest is kept |
| Readings.BlobAddress | engine/include/external/cwpack_internals.h:309-312 | the address stored for a string, binary or extension is that of its bytes, which end where the cursor stands |
| Unpacker.UnpackContext.SkipOne | engine/include/external/cwpack.c:609-735 | one turn of the skipping loop moves and fails exactly as specified, with 32-bit sums and products |
| Unpacker.UnpackContext.SkipItems | engine/include/external/cwpack.c:600-736 | the counter loop ends, on every byte string, in the specified position with the specified code |
| Unpacker.UnpackContext.PeekType | engine/include/external/cwpack.c:739-814 | the answer is the specified type or code, and the cursor does not move |
| Skipping.TablesAgree | engine/include/external/cwpack.c:618-734 | for every first byte the skipper's jump is the length the reader consumes, and its growth the number of contained values |
| Skipping.HopIsDecode | engine/include/external/cwpack.c:609-735 | one turn of the skipper moves as one read does, fails with the same code, and adds the contained values to the count, unless the header wraps or is a timestamp of a wrong length |
| Skipping.SkipIsDescent | engine/include/external/cwpack.c:600-736 | on arbitrary bytes the single-counter loop does what recursive descent over nested values does, whatever is pending behind |
| Skipping.DescendValues | engine/include/external/cwpack.c:600-736 | recursive descent reads any packed nested values to their end |
| Skipping.SkipValues | engine/include/external/cwpack.c:600-736 | skipping as many items as there are packed nested values stops exactly behind them, whatever follows |
| Skipping.SkipExactly | engine/include/external/cwpack.c:711-730 | a value with modest contents is skipped exactly if and only if its own header does not wrap |
| Skipping.SkipCounted | engine/include/external/cwpack.c:600-736 | on packed nested values without an extension of 2^32 - 1 bytes the counter never runs past their end, and reaches it if and only if it was their number and no map at any depth has 2^31 pairs or more |
| Skipping.SkipNestedExactly | engine/include/external/cwpack.c:711-714 | a value without such an extension is skipped exactly if and only if no map in it, however deep, has 2^31 pairs or more |
| Skipping.SkipShort | engine/include/external/cwpack.c:711-730 | a value whose header wraps is left before its end |
| Skipping.LookAheadAgrees | engine/include/external/cwpack.c:739-814 | on bytes the reader accepts the type announced is the type then read, if and only if they are no non-negative number in a signed format; those are announced as negative |
| Skipping.LookAheadAtPacked | engine/include/external/cwpack.c:739-814 | on everything the packer writes, in either mode, the type announced is the type then read |
| Skipping.LookAheadCut | engine/include/external/cwpack.c:739-814 | of an item cut short the same type is announced, as soon as its first byte, or for extensions and timestamps the type byte, is there; before that it is an underflow, or the end of input |
| Events.ToFloatFixes | engine/src/event_parser.c:47 | the conversion to float lands on the numbers with 24 significant bits, moves no other, and is idempotent |
| Events.ToFloatNearest | engine/src/event_parser.c:47 | no float is nearer to the integer than the converted one, and of two equally near the one with the even significand is taken |
| Events.DeviationFits | engine/src/event_sender.c:30 | the converted deviation is below 2^64 if and only if the integer is not among the topmost 2^39 |
| Queue.EventQueue.constructor | engine/src/event_queue.c:5-9 | an empty queue |
| Queue.EventQueue.Push | engine/src/event_queue.c:11-23 | the event is appended and 0 returned if there is room for it; otherwise -1 and no change |
| Queue.EventQueue.Pop | engine/src/event_queue.c:25-35 | the oldest event is removed and returned, or -1 and no change on an empty queue |
| Queue.OfferAllTakesFirst | engine/src/event_queue.c:11-23 | of several pushes with nobody popping exactly the first that fit are kept, in order |
| RingProtocol.StepKeepsInv | engine/src/event_queue.c:11-35 | each load, each store and each word of a slot copy keeps the protocol invariant: slots between tail and head hold the accepted events, a partial copy agrees with its source |
| RingProtocol.RingIsFifo | engine/src/event_queue.c:11-35 | in every interleaving of one producer and one consumer the calls take effect as on a FIFO of QUEUE_SIZE - 1 events: nothing torn, lost, doubled or reordered, full and empty only when true, what was popped a prefix of what was accepted; what push_event and pop_event return is exactly that, in order, one answer a call, at most one empty answer still to come |
| RingProtocol.NoSlotShared | engine/src/event_queue.c:20-32 | while both threads copy they work on different slots |
| RingProtocol.PushAlone | engine/src/event_queue.c:11-23 | from any state of the protocol, whatever the consumer is in the middle of, a push on its own ends and appends its event, or answers full if and only if QUEUE_SIZE - 1 events are queued |
| RingProtocol.PopAlone | engine/src/event_queue.c:25-35 | whatever the producer is in the middle of, a pop on its own ends and takes the oldest event, or answers empty if and only if there is none |
| Parser.Deserialize | engine/src/event_parser.c:16-132 | on every byte string the return code is the specified one and the queue has been offered exactly the specified events, in order |
| Parser.EnqueueBatches | engine/src/event_parser.c:63-102 | the outer loop offers exactly the batches of all the variables read |
| Parser.FillBatch | engine/src/event_parser.c:72-96 | the inner loop reads as many variables as fit a batch or are left, and appends them in order |
| Readings.ParseExactly | engine/src/event_parser.c:16-132 | every buffer becomes what the items read from it say: refused if and only if nothing is read, the size is below four, the type is unknown or an update's size is not 5 + 2n in 32 bits; otherwise the events its header, count and variables spell, each read from what its item left in the union |
| Readings.RejectedExactly | engine/src/event_parser.c:33-60 | a message with its size, type and count in place is refused if and only if the size is below four, the type is not 0 or 1, or it is an update whose size is not 5 + 2n in 32 bits |
| Messages.BatchesSplit | engine/src/event_parser.c:63-102 | n variables make ceil(n/8) events with the same header, all full except possibly the last, which together are the variables in order |
| Messages.QueuedBatches | engine/src/event_parser.c:99-101 | with k free slots and nobody popping exactly the first min(k, ceil(n/8)) batches are queued |
| Messages.CompleteUpdate | engine/src/event_parser.c:29-102 | a complete update message, in any of its encodings, from any buffer address and stack contents and with anything behind it, becomes exactly the batches of its variables under its header |
| Messages.CompleteError | engine/src/event_parser.c:105-124 | a complete error message, with any numeric deviation, becomes one event with its header, its code and at most 63 bytes of its text |
| Messages.HalfMisread | engine/src/event_parser.c:47 | a single-precision 0.5 becomes, up to timestamp 2^48, the timestamp with 1056964608 for its low 32 bits, and never less than that number |
| Numbers.FloatNear | engine/src/event_parser.c:47 | an integer is converted to a given float if and only if it is within half a unit of it |
| Numbers.DeviationExactly | engine/src/event_parser.c:45-47 | for every numeric deviation and every timestamp, the header's deviation is the number sent if and only if it is an integer of at most 24 significant bits, a double-precision 0.0 or lucky pattern, a single-precision 0.0 or lucky pattern below timestamp 2^32, or a single-precision number from 2^32 on near the word it shares with the timestamp |
| Numbers.SmallSingleDeviation | engine/src/event_parser.c:45-47 | a single-precision deviation below 2^32 is parsed as sent if and only if it is 0.0 or the lucky pattern and the timestamp is below 2^32 |
| Numbers.ValueExactly | engine/src/event_parser.c:75-92 | for every numeric value item, the single-precision number in the store is the number sent if and only if that is a finite single-precision number or zero |
| Numbers.IntegerExactly | engine/src/event_parser.c:91 | the integer member of the value holds the integer sent if and only if it fits 32 bits |
| ParsedEvents.ParseProper | engine/src/event_parser.c:16-132 | on every byte string each event's payload matches its type, an update has 1 to 8 variables, and every field has its width |
| Sender.MessageFits | engine/src/event_sender.c:21-41 | a serialized event takes at most 92 bytes |
| Sender.Serialize | engine/src/event_sender.c:21-41 | the buffer holds exactly the message's bytes and the returned size is their number |
| Sender.MessageItems | engine/src/event_sender.c:21-41 | the message reads back as its size, the type 0, timestamp, deviation, twin and count as integers, and for each variable its identifier and its value in single precision, in order, and nothing else |
| Sender.SendThenParse | engine/src/event_sender.c:21-41 | what one node serializes the next one parses into exactly one event with the same variables and value bits in the same order, or none for an event without variables |
| Sender.ReceivedUnchanged | engine/src/event_sender.c:28-30 | the received event is the sent one if and only if that was an update with a deviation of at most 24 significant bits; a second hop changes nothing more |
| Memory.TwinsMemory.constructor | engine/src/twins_memory.c:6-15 | every value is zero and every twin is marked as gone |
| Memory.TwinsMemory.UpdateVar | engine/src/twins_memory.c:19-28 | one cell and one status change, or nothing out of range |
| Memory.TwinsMemory.GetVar | engine/src/twins_memory.c:32-39 | the stored value, or the bits of -1.0f out of range |
| Memory.TwinsMemory.SetStatus | engine/src/twins_memory.c:41-49 | one status changes, or -1 and no change out of range |
| Memory.TwinsMemory.GetStatus | engine/src/twins_memory.c:52-59 | the stored status, or -1 out of range |
| Rules.RuleEngine.constructor | engine/src/rule_engine.c:7-25 | the four error rules, and every update ignored |
| Rules.RuleEngine.SetErrorRule | engine/src/rule_engine.c:27-32 | one error rule changes, or none out of range |
| Rules.RuleEngine.SetUpdateRule | engine/src/rule_engine.c:36-42 | the rule of exactly one variable changes, or none out of range |
| Rules.RuleEngine.GetActionForError | engine/src/rule_engine.c:45-51 | the error's rule, ignore out of range |
| Rules.RuleEngine.GetUpdateRule | engine/src/rule_engine.c:53-59 | the variable's rule, ignore out of range |
| Dispatcher.EventDispatcher.StoreValues | engine/src/event_dispatcher.c:57-63 | the store becomes the fold of the updates, addressed with 8 bits |
| Dispatcher.EventDispatcher.Route | engine/src/event_dispatcher.c:69-105 | the two batches are the updates with the two rules |
| Dispatcher.EventDispatcher.Dispatch | engine/src/event_dispatcher.c:29-114 | an update event folds its updates into the store and offers to each queue its batch, which `Routing.BatchExactly` determines; any other event changes nothing |
| Routing.LastWriterWins | engine/src/event_dispatcher.c:57-63 | each addressed cell holds the value of the last update to it, every other cell and twin is untouched, and the twin is marked present if and only if a cell was addressed |
| Routing.UnknownTwin | engine/src/twins_memory.c:21-22 | an unknown twin changes nothing |
| Routing.StoredWhereNamed | engine/src/event_dispatcher.c:58 | in every store a value reaches the cell its identifier names if and only if the identifier is not one the cut to 8 bits moves into the table |
| Routing.AppliedAsIntended | engine/src/event_dispatcher.c:57-63 | without such identifiers the store is the fold over the full identifiers |
| Routing.ChosenIsFilter | engine/src/event_dispatcher.c:75-105 | a batch is the order-preserving selection of exactly the positions whose rule matches |
| Routing.RoutedOnce | engine/src/event_dispatcher.c:81-105 | no position is in both batches |
| Routing.BatchExactly | engine/src/event_dispatcher.c:69-112 | for an action other than ignoring, an event is handed on if and only if the table names the action for one of its updates, and then once, with its header and exactly those updates, in order |
| Routing.BatchIsEntry | engine/src/event_dispatcher.c:69-112 | every batch is an update event with 1 to 8 variables, all inside the tables, under the event's header |
| Pipeline.StepKeeps | engine/src/event_processor.c:13-21 | every step of every thread keeps the whole-run invariant; `Tracing.RulesAfterRun` and `Tracing.StatusAfterRun` say which rules and statuses the steps leave |
| Runs.Conservation | engine/src/event_processor.c:13-21 | after every run nothing has appeared, disappeared or changed places between the stages except at a full queue: parsed, offered, accepted, dispatched, batched and sent events correspond in order |
| Runs.LosslessWhenRoomy | engine/src/event_sender.c:195-201 | if no push met a full queue and all has drained, the messages sent are the notification batches of all parsed events, in order |
| Tracing.StepRules | engine/src/rule_engine.c:36-42 | after a step that sets a rule the rule of that variable, if it is in the table, and no other is the new one; every other step keeps every rule |
| Tracing.RulesAfterRun | engine/src/rule_engine.c:36-42 | after every run each variable has the rule last set for it, or its initial one without one |
| Tracing.ProcessedTraced | engine/src/event_processor.c:13-21 | in every run the processed entries are, in order, exactly the events the dispatching steps found, each with the table that holds for every variable the rule last set before that step |
| Tracing.HandedOnTraced | engine/src/event_dispatcher.c:69-112 | in every run the events handed on for an action are, in order, one for each dispatching step whose event has an update with that rule, as last set before the step: its header and exactly those updates; the other dispatching steps hand nothing on |
| Tracing.SentTraced | engine/src/event_sender.c:195-201 | if no push met a full queue and all has drained, those are the messages sent |
| Tracing.StatusAfterRun | engine/src/twins_memory.c:19-49 | after every run a twin is present if and only if some dispatched event wrote one of its variables and no deletion of it came later |
| Progress.RoundsCarry | engine/src/event_processor.c:13-21 | from any quiet state some steps carry all parsed events through: each is processed once, in order, stored, and its batches sent and served |
| Progress.MessageCarried | engine/src/event_reciever.c:54-62 | so a message received in a quiet state can always be carried through |
| Runs.EntriesHold | engine/src/event_sender.c:195-201 | in every reachable state each event queued or sent for notification is an update with 1 to 8 variables and twin and variables inside the tables |
| Runs.NextNodeReceives | engine/src/event_sender.c:43-65 | after every run each event handed to the sender can be serialized if and only if its deviation is below 2^64, and is then parsed by the next node into exactly the event that was sent |
| Runs.StoreAfterRun | engine/src/twins_memory.c:19-28 | after every run each variable holds the value of the last dispatched update addressed to it, zero without one |
| Runs.StoreFits | engine/src/twins_memory.c:19-49 | in every reachable state each twin's status is 0 or 2 and each value fits its field |
| Runs.ReachesClosedConnector | engine/src/event_sender.c:198 | the dispatcher can queue an event for a twin without an open connector if and only if a notify rule names such a twin |
| Runs.SendsToOpenConnectors | engine/src/event_sender.c:195-201 | as long as no such rule is set, every event of every run has an open connector |
| Threads.DecodeEncode | engine/include/event_types.h:37-69 | every event with at most 8 updates or a message below 64 bytes survives as the words of a slot |
| Threads.StepSimulates | engine/src/event_processor.c:13-21 | every single load or store of a queue and every other step keeps the invariant and is, to the pipeline, one step or none |
| Threads.RunsRefine | engine/src/event_queue.c:11-35 | every interleaving of all threads' loads and stores is a run of the pipeline with atomic queue operations, in the order in which calls took effect |
| Realised.RunsRealised | engine/src/event_queue.c:11-35 | every run of the pipeline with atomic queue operations is what some interleaving of single loads and stores amounts to |
| Threads.ConservedThroughout | engine/src/event_processor.c:13-21 | so conservation between the stages holds in every such interleaving |
| Engine.StepKeeps | engine/src/twins_memory.c:19-28 | every step keeps the whole engine's invariant: a queue's load or store, one of the three stores of a variable, a load of the query server, a request, a deletion |
| Engine.RepliesTraced | engine/src/api_server.c:97-145 | in every interleaving each reply has one reading for each twin asked for, in order; each shows every update completed before its status load or a newer one, and the right status; each value is zero if nothing was stored before its load, and otherwise that of an update in an event parsed from a received message |
| Engine.StoresFollowQueue | engine/src/event_dispatcher.c:57-63 | in every interleaving the stores made to a twin are, in order, those that the events taken from the main queue ask for: all of the dispatched ones' and a beginning of the one's in hand; and those events are a prefix of the accepted ones |
| Engine.PipelineHolds | engine/src/event_processor.c:13-21 | the queues conserve their events and hold well-formed entries in every such interleaving |
| Service.StoreAlone | engine/src/event_dispatcher.c:29-114 | the processor on its own stores the event in its hands exactly as one pass over its updates would, and hands it on |
| Service.RecordsMatch | engine/src/event_dispatcher.c:57-63 | in every interleaving, whenever the processor holds no event, the records hold the values of the pipeline's store, where an event is stored in one step |
| Service.AskAlone | engine/src/api_server.c:97-129 | a request no other thread disturbs is answered, twin by twin, with the status and the twenty values the store holds, and leaves the store as it is |
| Service.DeleteThenAsk | engine/src/api_server.c:131-132 | right after a deletion the reply shows that twin gone with its values, and every other as it was |
| Publication.StepKeepsInv | engine/src/twins_memory.c:19-28 | every single store of an update or a deletion and every load of a query keeps the publication invariant |
| Publication.AnswersArePublished | engine/src/api_server.c:97-129 | in every interleaving an answer shows, for each update completed before its status load, that value or a newer one of the same variable; it reports the twin present if and only if the last status store was an update's, and then there is such an update; no third status |
| Publication.AnswersAreOrdered | engine/src/api_server.c:126-128 | a variable later in the answer is never from an older store than an earlier one |
| Publication.UpdateAlone | engine/src/twins_memory.c:19-28 | whatever the query server is in the middle of, an update on its own ends, changes its variable and no other, and marks the twin present |
| Publication.QueryAlone | engine/src/api_server.c:117-128 | whatever the processor is in the middle of, a query on its own ends and shows the status and every variable at its place |
| Publication.GoneAtOnce | engine/src/api_server.c:131-132 | a query right after a deletion shows the twin gone and its values kept |
| Publication.StaysGone | engine/src/twins_memory.c:41-49 | a deleted twin stays so while no update begins, if none was half done |
| Publication.DeletionLasts | engine/src/api_server.c:131-132 | a deletion lasts until the next update begins if and only if no update was between its value store and its status store |
| ApiServer.ReadRequest | engine/src/api_server.c:50-91 | the request is the specified one, with the specified message for each malformed form |
| ApiServer.RequestReads | engine/src/api_server.c:50-91 | a complete request, in any of its encodings and with anything behind it, is understood as the operation and identifier it carries |
| Readings.RequestExactly | engine/src/api_server.c:50-91 | every buffer is taken for the request, or gets the error, that the items read from it say: nothing read, no array or an empty one, an unknown operation, one argument where two are needed |
| Readings.CutAfterHead | engine/src/api_server.c:80-92 | a request of which only the array's head can be read: an error, or the operation and the twin that the array's size spells, exactly as its low byte says |
| Readings.CutAfterOperation | engine/src/api_server.c:80-92 | a request cut behind operation 1 or 2, unless it is an array of one, reads or deletes the twin with the operation's number |
| ApiServer.ReplyFits | engine/src/api_server.c:41-143 | every reply fits its buffer |
| ApiServer.ReplyAnswers | engine/src/api_server.c:97-141 | every reply, item by item and character by character: "id" with the identifier, "status" with the twin's status, "vars" with variable v at place v; for all ten twins in order; status 2^64 - 1 and twenty times -1.0 for an unknown twin; and the deletion and error replies |
| ApiServer.RequestMarks | engine/src/api_server.c:131-132 | a deletion sets the status of that twin to 2 and changes no value and no other twin; other requests change nothing |
| ApiServer.SendError | engine/src/api_server.c:11-22 | the reply is the whole error message |
| ApiServer.PutTwin | engine/src/api_server.c:117-128 | one twin's identifier, status and twenty values are appended in order, as `ApiServer.ReplyAnswers` spells them out |
| ApiServer.PutAllTwins | engine/src/api_server.c:99-113 | all ten twins are appended in order |
| ApiServer.Handle | engine/src/api_server.c:50-145 | the reply is read back as exactly the items that answer the request from the store, with every status and value at its place, complete; a deletion leaves status 2 on its twin and nothing else changes |
| Chrony.DecimalReads | api/src/services/ChronyService.cpp:30 | a number written in decimal can be read back and has no line break |
| Chrony.NumeralExactly | api/src/services/ChronyService.cpp:30 | it is the one text of digits without a leading zero, behind a minus sign if negative, that reads as the number |
| Chrony.ReadWritten | api/src/services/ChronyService.cpp:76-78 | lines without line breaks are read back as they were written |
| Chrony.FileIsItsLines | api/src/services/ChronyService.cpp:22-80 | the lines of a file, written back, are the file, with a line break at its end |
| Chrony.MatchIsKeyword | api/src/services/ChronyService.cpp:24-43 | the branch order never decides: a line is rewritten for a setting if and only if the setting is supplied and the line starts with its keyword |
| Chrony.ChronyService.RewriteLine | api/src/services/ChronyService.cpp:24-45 | one turn rewrites the line as specified and raises at most the flag of its setting |
| Chrony.ChronyService.ReadAndRewrite | api/src/services/ChronyService.cpp:23-47 | the loop yields the rewritten lines of the whole file and a flag for every setting it mentions |
| Chrony.ChronyService.UpdateConfiguration | api/src/services/ChronyService.cpp:7-82 | if and only if the file can be opened twice, it becomes the old lines, those that begin with a supplied keyword carrying the supplied value, followed by a blank line and a line with its value for each supplied setting no old line begins with; otherwise it is unchanged and the message says which opening failed |
| Chrony.UpdateRewrites | api/src/services/ChronyService.cpp:22-81 | the same of every file and any settings, a server name with line breaks included |
| Chrony.CarriesExactly | api/src/services/ChronyService.cpp:24-38 | the line written for a setting is the one that carries the supplied value: keyword, blank and the numeral of the value, or "server ", the name and " iburst" |
| Chrony.LastConfigurationWins | api/src/services/ChronyService.cpp:19-81 | after two requests that supply the same settings the file is, byte for byte, as after the second alone |
| Chrony.BothUpdates | api/src/services/ChronyService.cpp:19-81 | for any two requests and any file: the file's own lines as one request with the merged settings would rewrite them, then what the first appended with the merged values, then what only the second had to append |
| Chrony.TwoConfigurations | api/src/services/ChronyService.cpp:19-81 | after any two requests each setting that either supplies has a line that reads back as its value, the second's if it has one, and every line with its keyword does; lines that match neither keep position, content and order |
| Chrony.GrowsAgain | api/src/services/ChronyService.cpp:26 | with a line break in the server name a further request makes the file at least one line longer |
| Chrony.IdempotentExactly | api/src/services/ChronyService.cpp:19-81 | for every file a second identical request changes nothing if and only if the server name has no line break |
| Chrony.OthersKeptExactly | api/src/services/ChronyService.cpp:43-45 | in every file lines with no supplied keyword keep position, content and order, and the only new such lines are the blank ones before appended settings, if and only if the server name has no line break |
| Chrony.SettingsExactly | api/src/services/ChronyService.cpp:24-71 | in a file every supplied setting has a line, and every line with its keyword reads back as the supplied value, for all settings, if and only if the server name has no line break |
| Chrony.NewLineIsValue | api/src/services/ChronyService.cpp:26-38 | equal lines mean equal values |

## Left out

Weaker than the code, or narrower:

- Skipping.SkipExactly: requires contents without wrapping headers, and `Skipping.SkipNestedExactly` a value without an extension of 2^32 - 1 bytes; such an extension inside a container makes the skipper read its bytes as items, which can by chance end at the right place.
- Unpacker.UnpackContext.SkipItems: `item_count` is unbounded; the C `long` holds every count a buffer below 2^32 bytes can reach.
- Sender.Serialize: requires a deviation below 2^64, because converting a larger float to an integer is undefined in C; `Events.DeviationFits` says when the parser produces one.
- Messages.CompleteUpdate: requires 5 + 2n < 2^32, because the comparison with the array size is made modulo 2^32; `Parser.Deserialize` models the modular comparison.
- Messages.HalfMisread: is one number; `Numbers.DeviationExactly` is the exact condition for all of them.
- Numbers.ValueExactly: compares the store's single-precision reading, which the dispatcher, the sender and the query server use; nobody reads the integer member that `Numbers.IntegerExactly` is about.
- Runs.NextNodeReceives: says nothing of an event whose deviation is 2^64, because converting it back to an integer is undefined in C; `Events.DeviationFits` says which integers give one.
- Chrony.LastConfigurationWins: requires the same settings in both requests; `Chrony.BothUpdates` gives the file for any two.
- Publication.AnswersArePublished: models one twin; `Engine.RepliesTraced` is about all ten.
- ApiServer.Handle: is one request without interference; the same loads with interference are the steps of `Engine`.

Assumptions:

- The plain `size_t` fields of the queue and its slots are read and written with sequential consistency; the C code does not enforce it.
- In `Pipeline` and `Threads` the dispatcher's writes and rule lookups for one event are one step. `Engine` makes every write a step; the rule lookups for an event remain one, because no thread of the engine sets rules (`set_update_rule` is called by its users, before or between events).
- No source under `engine/src` takes events from the user-actions queue, so its consumer, `Serve` in `Pipeline`, is an assumption: one thread that pops.
- Addresses have 64 bits, so that no sum of a pointer and a 32-bit length wraps; the packer's macros add such sums term by term.
- The item union is that of a little-endian machine with 64-bit addresses. The buffer's address (`base`) and the bytes of the uninitialised union (`junk`) are parameters, so that the parser is modelled on every byte string, stale values included.
- Floats are bit patterns and copying one keeps its bits; the deviation is a natural number, the value of a float converted from an unsigned integer.
- Received messages have at most 1024 bytes; the size ZeroMQ reports for a longer, truncated message is not modelled.
- Characters of the chrony file stand for its bytes; whether the file can be opened for reading and for writing is a property of the file object.

Not modelled:

- Sockets, thread creation, core pinning, priorities, sleeping, signals and shutdown.
- Clocks, `last_update_ms` contents (its store is a step in `Publication`), the history logs and `printf`.
- Overflow, underflow and flush handlers; every caller passes none.
- `cw_pack_insert`, `cw_pack_flush`, `cw_pack_true` and `cw_pack_false`, the run-time byte-order test and the alignment variants.
- The actions of error events, which only print, and the `destiny_url` field, which nothing reads.
- `ChronyService::restartService`, the HTTP controllers, the user service and the Python scripts.
