# Verified model of the IoT server's core

This project models the parts of the server whose correctness does not depend on the
network, and proves what they keep, what undoes what, and where they fall short. Each core
has a specification on values (functions, transition systems), the code itself as methods
and classes that change state, proved against that specification, and lemmas about the
specification. `dafny verify dfyconfig.toml` checks everything.

| part | files |
|---|---|
| Executor re-entry and close protocol, as a transition system with one program counter per thread | `Executor.dfy` |
| Delayed deletion of closed executors | `Cleanup.dfy` |
| Slab allocator over raw bytes: free list threaded through the slots, size classes | `Slab.dfy`, `SlabHeaders.dfy`, `SlabAllocator.dfy`, `SizeClasses.dfy` |
| HPACK Huffman coder: bit packing, code tree, shipped table | `Bits.dfy`, `HuffmanCode.dfy`, `HuffmanPacking.dfy`, `HuffmanCoder.dfy`, `HuffmanTree.dfy`, `HuffmanTable.dfy`, `HuffmanReverse.dfy`, `HuffmanGap.dfy` |
| HPACK header tables: a vector and two hash indexes | `HeaderTable.dfy` |
| IPv6 text form: compressing printer, two-pass parser, sockets | `NumberText.dfy`, `Ipv6Text.dfy`, `Ipv6.dfy` |
| Binary logger: producer and flusher on one buffer, and any number of loggers on one file, as transition systems | `Logger.dfy`, `LoggerList.dfy` |
| Log reader: reordering by timestamp | `LogReader.dfy` |
| Format strings of the log: three compile-time automata and the reader's, and the grammar they accept | `FormatString.dfy`, `FormatGrammar.dfy` |
| HTTP/2 request list | `RequestList.dfy` |
| DATA framing and the partial-write queue | `DataFrames.dfy`, `WriteQueue.dfy`, `FileResponse.dfy` |
| JSON printer and parser | `JsonText.dfy`, `JsonParse.dfy`, `JsonRoundTrip.dfy`, `JsonCode.dfy` |
| Base64 decoding | `Base64.dfy` |
| Entity tag matching | `ETag.dfy` |

## How the code is modelled

- Concurrency. `Executor`, `Logger` and `LoggerList` are transition systems: every access to shared memory
  is a step of one thread, memory is sequentially consistent, and theorems are about all
  schedules. In `Logger` entries are copied and written out byte by byte, and every read of
  the write position outside the logging thread is a step; the list mutex and the logger's
  mutex are explicit, and the first buffer is installed under its mutex in one step. What the
  source runs under one lock from beginning to end (`delayed_free`, the draining pass,
  `fixed_memory::free`) is one operation, and every interleaving is a sequence of operations.
  `get_memory` is one operation too, although it writes into the header of the slot it hands
  out after the unlock: by then no other thread has the slot, and the contracts say that
  these writes touch nothing else.
- Memory. Store blocks are byte arrays, and headers are the bytes that the packed structures
  of the source lay out on a little-endian machine. A caller uses the memory it was given
  through `WritePayload`, byte by byte. Null children, `next` links, `first` and
  `last` are references between objects; `delete` is a flag that may be set once and must not
  be set on an object that is read afterwards.
- Integers. Widths are written out where they matter: the 32-bit offsets of the threading
  loop, 32-bit shifts of Huffman codes, 16-bit groups and ports, 8-bit base64 arithmetic, the
  24-bit length and 31-bit stream of a frame, 64-bit JSON numbers. Counters and sizes are
  unbounded otherwise.
- Parameters. The clock is a parameter of `Cleanup`, the contents of fresh memory one of
  `Logger`, the answers of the socket one of `WriteQueue`, and the choice among entries with
  equal timestamps is left open in `LogReader`.

## Where the code falls short

Each of these is stated as an if-and-only-if or with a concrete input.

- Bytes 5 and 6 share a code in the shipped Huffman table, so a string is returned exactly if
  it has no byte 5 (`HuffmanTable.ShippedRoundTripIff`). The code 0xfffffe6 is missing instead:
  the decoder follows a null child exactly when it comes behind whole codes
  (`HuffmanGap.LeavesTreeIff`, `HuffmanGap.GapIsReceived`).
- Popping a header line that occurs twice makes the other one unfindable
  (`HeaderTable.PopKeepsCompleteIff`, `HeaderTable.DuplicateIsLost`).
- `%F` and a bare `%f` are read with fewer bytes than were stored, `%c` keeps the reader
  behind the percent sign, and the modifier `L` makes the type list too long. An accepted
  string is read in step exactly if it has no `%F`, no bare `%f` and no `L`, and every `%c` has
  no modifier and is followed by text from which the reader finds back, such as a blank
  (`FormatString.InStepIff`, `FormatString.CharIsMisread`, `FormatString.AcceptedTypes`).
- A frame's stream identifier loses bit 7 of its low byte when it is read and when it is set,
  so that a request is answered on its own stream exactly if that bit is 0
  (`DataFrames.AnsweredOnItsStreamIff`, `DataFrames.StreamKeptIff`, `DataFrames.Stream129`).
- The announced length of a base64 text is what is decoded only under a condition on its
  padding, and may be less than what is decoded (`Base64.DecodeLenIff`,
  `Base64.DecodedFitsIff`, `Base64.OneTooMany`).
- An IPv6 text whose double colon is in front and stands for a single group, such as
  "::2:3:4:5:6:7:8", fails the closing assertion of the parser; every other text of eight
  groups is read (`Ipv6Text.ParseTextIff`, `Ipv6.ParseSocketIff`).
- `%%` is accepted only where an argument is left to be formatted
  (`FormatGrammar.AcceptedIff`).
- A failing write drops the rest of its buffer (`WriteQueue.WriteConserves`).
- A bare number is printed to a text that does not parse, and object keys come back only in
  escaped form (`JsonRoundTrip.RoundTripIff`, `JsonRoundTrip.LoadedComesBack`).
- For every lateness above the buffer time there is a file that the log reader puts out in
  the wrong order (`LogReader.BoundIsTight`); `LogReader.ComesOutSortedIff` says which files
  come out in order.

## Model

| member | source | states |
|---|---|---|
| `Executor.StartInv` | serverlib/include/iot/states/event_distributor.hh:31-33 | a fresh executor, also one entered before it is published, satisfies the protocol invariant |
| `Executor.StepInv` | serverlib/include/iot/states/event_distributor.hh:53-106 | every atomic access by any thread keeps the invariant: one thread inside at most, the counter accounts for every entry, and behind a runner that a close has overtaken the counter is at least 2 unless the closed check is still ahead |
| `Executor.RunInv` | serverlib/include/iot/states/event_distributor.hh:53-106 | the invariant holds after every interleaving of any length and any number of threads |
| `Executor.MutualExclusion` | serverlib/include/iot/states/event_distributor.hh:53-84 | at most one thread is ever inside `execute`, `flush` or `close`; the assertion of `execute_protector_noenter` holds |
| `Executor.OutsideBalance` | serverlib/include/iot/states/event_distributor.hh:70-106 | whenever no thread is inside, also with calls that have begun and not entered: entries equal executes plus the counter; without a close the counter is 0; after a returned `mark_closed` there was exactly one close |
| `Executor.NoEventLost` | serverlib/include/iot/states/event_distributor.hh:70-84 | with nobody inside and no close requested, `execute` was called once for every `enter_loop`, and the next event finds the counter at 0 |
| `Executor.EventServedAfterArrival` | serverlib/include/iot/states/event_distributor.hh:70-84 | an event that arrives while another thread runs is followed by an `execute` that begins after its arrival, by the next time that nobody is inside and no close is requested |
| `Executor.ClosedExactlyOnce` | serverlib/include/iot/states/event_distributor.hh:86-97 | once a `mark_closed` has returned and nobody is inside, `close` was called exactly once and the counter is above 0 |
| `Executor.RunWatched` | serverlib/include/iot/states/event_distributor.hh:53-106 | an onlooker who notes the last call of each thread and every body begun finds, after every interleaving: each thread stands where its call can stand, and the counts of executes and of returned closes are those of the state |
| `Executor.BodiesOfARun` | serverlib/include/iot/states/event_distributor.hh:86-97 | a whole run calls `execute`s for events alone, and then nothing, a flush in progress by a `mark_closed(true)`, or one close: flush and close of the same call for `mark_closed(true)`, a close without a flush for every other call |
| `Executor.LetInCloses` | serverlib/include/iot/states/event_distributor.hh:86-97 | a `mark_closed(r)` that finds the counter at 0 begins with `flush` if r and with `close` if not; a flush is followed by the close of the same call; behind another thread it returns and calls nothing |
| `Executor.OpenWithoutMark` | serverlib/include/iot/states/event_distributor.hh:53-97 | without a call of `mark_closed` the connection is never closed, and whenever nobody is inside there was one `execute` for every event |
| `Executor.NoExecuteAfterRequest` | serverlib/include/iot/states/event_distributor.hh:57-65 | after the closed flag is set no `execute` begins, in any continuation |
| `Executor.ClosedForever` | serverlib/include/iot/states/event_distributor.hh:57-96 | after `close`, in every continuation: no second close, counter above 0, no further `execute` |
| `Executor.StepLowersRemaining` | serverlib/include/iot/states/event_distributor.hh:53-106 | every step of a call in progress lowers a measure of the work left |
| `Executor.AlwaysComesToRest` | serverlib/include/iot/states/event_distributor.hh:53-106 | without new calls every interleaving ends after boundedly many steps |
| `Cleanup.RequestInv` | serverlib/include/iot/states/event_distributor.hh:179-190 | `delayed_free` keeps: the received set is the set of queued executors, each queued once, deleted at most once, the queue ordered by age |
| `Cleanup.PassInv` | serverlib/lib/states/event_distributor.cc:141-146 | a draining pass keeps the invariant, including that nothing is deleted before its grace period |
| `Cleanup.PassTakesPrefix` | serverlib/lib/states/event_distributor.cc:142-145 | a pass deletes, in order, exactly the front entries that are at least 2000000000 ns old at their check, and stops at the first that is not |
| `Cleanup.PassLeavesNoneExpired` | serverlib/lib/states/event_distributor.cc:142-145 | no entry anywhere in the queue that had expired at the last check of a pass is left behind |
| `Cleanup.DrainAllInv` | serverlib/lib/states/event_distributor.cc:161-164 | the last drain keeps the invariant and leaves queue and set empty |
| `Cleanup.RunInv` | serverlib/include/iot/states/event_distributor.hh:110-190 | the invariant holds after every interleaving of requests and passes with a clock that never goes back |
| `Cleanup.NothingLeaks` | serverlib/include/iot/states/event_distributor.hh:110-190 | the executors ever requested are exactly the queued and the deleted ones |
| `Cleanup.FromTheStart` | serverlib/include/iot/states/event_distributor.hh:110-190 | both for every legal sequence of operations on a distributor that starts empty |
| `Cleanup.DeletedAfterGrace` | serverlib/include/iot/states/event_distributor.hh:110-127 | over every legal run from the start, a deletion by a pass that reads the clock at `now` has an earlier `delayed_free` of that executor at least 2000000000 ns before `now` |
| `Cleanup.LeftWithinGrace` | serverlib/lib/states/event_distributor.cc:142-145 | after every legal run, what a pass leaves was requested less than 2000000000 ns before the pass read the clock for the last time |
| `Cleanup.EventDistributor.DelayedFree` | serverlib/include/iot/states/event_distributor.hh:179-190 | the fields change as the specification of a request says; the result tells whether the executor was new |
| `Cleanup.EventDistributor.RemoveAndFreeFront` | serverlib/include/iot/states/event_distributor.hh:124-127 | the front entry leaves queue and set and is deleted |
| `Cleanup.EventDistributor.CleanupPass` | serverlib/lib/states/event_distributor.cc:141-146 | the loop computes the specified pass |
| `Cleanup.EventDistributor.FinalDrain` | serverlib/lib/states/event_distributor.cc:161-164 | the loop computes the specified last drain |
| `Slab.TakenIsFresh` | serverlib/lib/memory/memory.cc:35-90 | a slot that is handed out exists and was not live |
| `Slab.GrowKeepsPartition` | serverlib/lib/memory/memory.cc:38-69 | growth keeps: every slot of every store is either live or listed once, never both |
| `Slab.PopKeepsPartition` | serverlib/lib/memory/memory.cc:70-79 | taking from the free list keeps the partition |
| `Slab.FreeKeepsPartition` | serverlib/lib/memory/memory.cc:92-109 | freeing a live slot keeps the partition |
| `Slab.TotalSlotsClosed` | serverlib/lib/memory/memory.cc:41-42 | after k growths there are 8(2^k - 1) slots |
| `Slab.GetKeepsSized` | serverlib/lib/memory/memory.cc:35-90 | the slots never exceed twice the peak of live slots plus 6 |
| `Slab.EveryRun` | serverlib/lib/memory/memory.cc:35-109 | partition, exact total and bound by the peak after every sequence of allocations and frees of live slots |
| `Slab.FromTheStart` | serverlib/lib/memory/memory.cc:35-109 | the same for every run of a fresh allocator; the peak is a number of slots live at some point of the run |
| `Slab.FreeUndoesGet` | serverlib/lib/memory/memory.cc:92-109 | freeing what was just taken restores live set and list, and the next allocation hands out the same slot |
| `Slab.BlockInOrder` | serverlib/lib/memory/memory.cc:38-79 | behind an empty list, call number k takes slot k of the new block, up to its 8 * 2^n slots |
| `SlabHeaders.LittleRoundTrip` | serverlib/include/iot/core/memory.hh:26-47 | bytes of a little-endian field read back to the value stored |
| `SlabHeaders.FreeRoundTrip` | serverlib/include/iot/core/memory.hh:50-71 | a list link written over a header reads back |
| `SlabHeaders.FreeHeaderBytes` | serverlib/include/iot/core/memory.hh:50-53 | a list link in memory: the block number, and the seven bytes of the offset with the low byte first |
| `SlabHeaders.AllocHeaderBytes` | serverlib/include/iot/core/memory.hh:26-47 | a live header in memory: size with the low byte first, block number, check bytes aa aa ee aa aa |
| `SlabHeaders.SlotsApart` | serverlib/lib/memory/memory.cc:55-61 | two slots of a block never overlap |
| `SlabHeaders.HeaderFrame` | serverlib/lib/memory/memory.cc:55-83 | storing a header changes no other header and no payload |
| `SlabHeaders.PayloadWritesAreHarmless` | serverlib/lib/memory/memory.cc:89 | writes of the callers into payloads leave list and headers intact |
| `SlabHeaders.PayloadFrame` | serverlib/include/iot/core/memory.hh:142-152 | storing a byte into a payload changes that byte, no header and no other payload |
| `SlabHeaders.PayloadWriteKeepsLayout` | serverlib/include/iot/core/memory.hh:142-152 | a caller that stores a byte into its payload leaves list, headers and all other payloads as they are |
| `SlabHeaders.LinkFits` | serverlib/include/iot/core/memory.hh:50-53 | every link fits its 8 and 56 bits and differs from the null link |
| `SlabHeaders.GrowKeepsLayout` | serverlib/lib/memory/memory.cc:38-69 | a threaded new block behind an empty list keeps the byte layout: list, live headers, partition |
| `SlabHeaders.PopKeepsLayout` | serverlib/lib/memory/memory.cc:70-87 | popping the list by reading the header keeps the layout and touches no live slot |
| `SlabHeaders.FreeKeepsLayout` | serverlib/lib/memory/memory.cc:92-109 | storing the old head into the freed header keeps the layout and touches no other live slot |
| `SlabHeaders.SizeKeepsLayout` | serverlib/include/iot/core/memory.hh:132-134 | writing the size into a live header keeps the layout |
| `SlabHeaders.LiveIsHanded` | serverlib/lib/memory/memory.cc:95-106 | the assertions that `free` makes about the header hold for every live slot |
| `SlabHeaders.ByteBoundLimitsStores` | serverlib/lib/memory/memory.cc:44-49 | blocks of at most 2^32 bytes number fewer than 26, so the 32 stores never run out |
| `SlabAllocator.ThreadBlock` | serverlib/lib/memory/memory.cc:52-69 | the 32-bit threading loop links every slot of a new block behind the first to the next, the last to null |
| `SlabAllocator.NewStore` | serverlib/lib/memory/memory.cc:41-69 | the new block has the size of its place and is threaded |
| `SlabAllocator.FixedMemory.constructor` | serverlib/include/iot/core/memory.hh:96-106 | a fresh allocator has no stores and an empty list |
| `SlabAllocator.FixedMemory.Grow` | serverlib/lib/memory/memory.cc:38-69 | the growing branch implements the specification and touches no live slot |
| `SlabAllocator.FixedMemory.Pop` | serverlib/lib/memory/memory.cc:70-87 | the popping branch implements the specification and touches no live slot |
| `SlabAllocator.FixedMemory.GetMemory` | serverlib/lib/memory/memory.cc:35-90 | `get_memory` hands out the address of a slot that was not live; headers and payloads of live slots are untouched |
| `SlabAllocator.FixedMemory.Free` | serverlib/lib/memory/memory.cc:92-109 | `free` finds the store in the header, puts the slot on top of the list, touches no other live slot |
| `SlabAllocator.FixedMemory.PutSize` | serverlib/include/iot/core/memory.hh:133-134 | the header of a live slot then names the size |
| `SlabAllocator.WritePayload` | serverlib/include/iot/core/memory.hh:142-152 | a caller writes a byte of a live payload: the allocator stays sound, the byte is there, nothing else changes |
| `SizeClasses.ChunkIndex` | serverlib/include/iot/core/memory.hh:149-152 | the size class of a request of 1 to 1024 bytes is that of the rounded size |
| `SizeClasses.ReadChunk` | serverlib/include/iot/core/memory.hh:158-160 | the header of a live slot names the size class it belongs to |
| `SizeClasses.Memory.constructor` | serverlib/include/iot/core/memory.hh:114-121 | 128 classes of 8 to 1024 bytes that share nothing |
| `SizeClasses.TakeTagged` | serverlib/include/iot/core/memory.hh:132-134 | a slot is taken and its header names the size class; headers and payloads of live slots are untouched |
| `SizeClasses.ReturnTagged` | serverlib/include/iot/core/memory.hh:156-162 | a freed slot leaves the headers and payloads of the others untouched |
| `SizeClasses.WriteTagged` | serverlib/include/iot/core/memory.hh:142-152 | writing a payload keeps every header naming its size class |
| `SizeClasses.Memory.PayloadBytes` | serverlib/include/iot/core/memory.hh:132-135 | the bytes behind a payload pointer are the payload of its slot |
| `SizeClasses.Memory.TakeFrom` | serverlib/include/iot/core/memory.hh:123-132 | one size class takes a slot; nothing in use is moved or changed, the other classes are unchanged |
| `SizeClasses.Memory.GetMemory` | serverlib/include/iot/core/memory.hh:123-135 | routing by size: the class takes a slot that was not live, payloads in use keep place and bytes, the other classes are unchanged |
| `SizeClasses.Memory.Alloc` | serverlib/include/iot/core/memory.hh:149-152 | an allocation of 1 to 1024 bytes returns the payload of a slot of its class that was not live; no payload in use is handed out again, moved or changed |
| `SizeClasses.Memory.Free` | serverlib/include/iot/core/memory.hh:156-162 | a free returns the slot to the class it came from, found through the header alone; every other payload keeps place and bytes |
| `SizeClasses.Memory.WritePayload` | serverlib/include/iot/core/memory.hh:142-152 | a caller writes a byte of its payload: the allocator stays sound, the byte is there, every other payload keeps its bytes |
| `Bits.BitAt` | httpparser/lib/hpack.cc:28-41 | the moving one-bit mask tests the bits of a code from the front |
| `Bits.CutBits` | httpparser/lib/hpack.cc:93 | shifting right leaves the first bits of a code, and the rest is what follows |
| `HuffmanPacking.StoreLast` | httpparser/lib/hpack.cc:82-83 | adding the shifted and masked rest of a code, in 32-bit arithmetic, appends exactly its bits to the byte |
| `HuffmanPacking.StoreFirst` | httpparser/lib/hpack.cc:91-93 | filling the byte stores the first bits of the code, and the low bits are what is left |
| `HuffmanPacking.StorePadding` | httpparser/lib/hpack.cc:101-104 | the closing addition appends one bits up to the byte border |
| `HuffmanCode.WalkWholeCode` | httpparser/lib/hpack.cc:50-63 | walking a whole code emits the last symbol with that code and returns to the root |
| `HuffmanCode.WalkPadding` | httpparser/lib/hpack.cc:50-63 | up to seven padding ones emit nothing (section 5.2 of RFC 7541) |
| `HuffmanCode.EosEnds` | httpparser/lib/hpack.cc:56-58 | a whole EOS ends the string, whatever follows it |
| `HuffmanCode.DecodesPacking` | httpparser/lib/hpack.cc:47-107 | over any decodable table a packing decodes to every byte's representative, the padding adding nothing |
| `HuffmanCode.RoundTripIff` | httpparser/lib/hpack.cc:47-107 | over any decodable table the round trip holds exactly for strings in which no byte shares its code with a later symbol |
| `HuffmanCoder.HuffmanStringSize` | httpparser/include/hpack.hh:358-364 | the announced size is that of the codes, rounded up to bytes |
| `HuffmanCoder.StoreCode` | httpparser/lib/hpack.cc:78-98 | the inner loop appends one code to the bits stored so far and touches no other byte |
| `HuffmanCoder.AddHuffmanString` | httpparser/lib/hpack.cc:72-107 | the bytes written are the codes in order followed by fewer than eight ones, as many as `huffman_string_size` says |
| `HuffmanTree.AddChild` | httpparser/lib/hpack.cc:29-38 | a missing child is linked below its parent, no other path changes |
| `HuffmanTree.Descend` | httpparser/lib/hpack.cc:28-40 | one bit leads to the child of that bit, made if missing |
| `HuffmanTree.InsertSymbol` | httpparser/lib/hpack.cc:24-42 | inserting a symbol adds exactly the prefixes of its code and sets the symbol at its end |
| `HuffmanTree.CreatedHuffmanTree` | httpparser/lib/hpack.cc:21-45 | the linked nodes are exactly the prefixes of codes, each with the last symbol whose code ends there |
| `HuffmanTree.TreeNodes` | httpparser/include/hpack.hh:237-253 | a node without children is a leaf of the code |
| `HuffmanTree.Follow` | httpparser/lib/hpack.cc:51-60 | one bit of the decoder is one step of the walk over code prefixes |
| `HuffmanTree.DecodeByte` | httpparser/lib/hpack.cc:51-65 | eight bits of the decoder are eight steps of the walk |
| `HuffmanTree.GetHuffmanString` | httpparser/lib/hpack.cc:47-70 | decoding over the linked nodes is the walk; a null child is met exactly when the bits leave the code |
| `HuffmanTree.RoundTrip` | httpparser/lib/hpack.cc:21-107 | tree, size, encoder and decoder together return every string with bytes replaced by representatives |
| `HuffmanTable.EntryOf` | httpparser/include/hpack.hh:301-335 | the shipped table, each entry in the range of its length and decoded by a reverse table, byte 5 standing with byte 6 |
| `HuffmanTable.NoShorterPrefix` | httpparser/include/hpack.hh:301-335 | no shipped code is a proper prefix of another |
| `HuffmanTable.ShippedDecodes` | httpparser/include/hpack.hh:301-335 | every symbol decodes to itself except byte 5, which decodes to 6 |
| `HuffmanTable.ShippedDecodable` | httpparser/include/hpack.hh:301-335 | the shipped table meets the conditions of the general round trip; seven ones begin EOS |
| `HuffmanTable.ShippedRoundTripIff` | httpparser/include/hpack.hh:302 | with the shipped table the round trip holds if and only if the string has no byte 5 |
| `HuffmanTable.Example307` | httpparser/lib/hpack.cc:72-107 | the shipped table packs "307" into 64 0e ff, as section C.6.2 of RFC 7541 does |
| `HuffmanGap.IsReversed` | httpparser/include/hpack.hh:301-335 | every number in the range of its length but one is the code of the symbol that the reverse table names |
| `HuffmanGap.BitLeads` | httpparser/lib/hpack.cc:50-63 | from a node inside the tree of the shipped table every bit leads to a node, but for the last bit of the missing code 0xfffffe6 |
| `HuffmanGap.LeavesTreeIff` | httpparser/lib/hpack.cc:50-63 | the decoder meets a null child exactly on the bits that are the codes of some string followed by the missing code and anything |
| `HuffmanGap.GapIsReceived` | httpparser/lib/hpack.cc:50-63 | four bytes whose first 28 bits are the missing code lead there |
| `HeaderTable.PushAgrees` | httpparser/include/hpack.hh:78-90 | `push_back` keeps both indexes in agreement with the lines |
| `HeaderTable.PopAgrees` | httpparser/include/hpack.hh:92-119 | `pop_back` keeps the agreement, and the field is always in its index |
| `HeaderTable.PopToAgrees` | httpparser/include/hpack.hh:148-154 | popping to a size keeps the lines added first |
| `HeaderTable.PopKeepsCompleteIff` | httpparser/include/hpack.hh:92-98 | popping keeps every line findable if and only if the popped line has no value or does not occur earlier |
| `HeaderTable.DuplicateIsLost` | httpparser/include/hpack.hh:92-98 | a line pushed twice and popped once is in the table and not found |
| `HeaderTable.RunAgrees` | httpparser/include/hpack.hh:36-163 | after any legal calls the field index gives first position and count, and every hit leads to an equal line |
| `HeaderTable.RunFound` | httpparser/include/hpack.hh:36-163 | as long as no line is added that is already there, every line with a value is found |
| `HeaderTable.StepBounded` | httpparser/include/hpack.hh:141-163 | the size bound max(1, max_size) survives every operation, an inherited `push_back` exactly when there was room |
| `HeaderTable.RunBounded` | httpparser/include/hpack.hh:141-163 | after any run of its own operations the table is within max(1, max_size) |
| `HeaderTable.StepLines` | httpparser/include/hpack.hh:78-162 | the lines and the bound after each operation: one more, one less, none, a beginning of what was there |
| `HeaderTable.InsertKeeps` | httpparser/include/hpack.hh:156-162 | with room, an insert leaves the earlier lines with the new one behind them and every earlier hit and field where it was; without room it leaves the new line alone |
| `HeaderTable.PushKeeps` | httpparser/include/hpack.hh:78-90 | `push_back` adds the line behind the others and leaves every earlier hit and field where it was |
| `HeaderTable.PopKeeps` | httpparser/include/hpack.hh:92-119 | `pop_back` takes the last line and its hit away and leaves every other hit |
| `HeaderTable.InsertsFromEmpty` | httpparser/include/hpack.hh:146-162 | a table of size m that was empty holds, after n > 0 inserts, the last (n - 1) % max(1, m) + 1 lines inserted, in order |
| `HeaderTable.MapTable.Find` | httpparser/include/hpack.hh:62-68 | a hit is an equal line; while every line is findable, -1 means that there is none |
| `HeaderTable.MapTable.FindField` | httpparser/include/hpack.hh:70-76 | the first line of a field, or -1 when it has none |
| `HeaderTable.MapTable.PushBack` | httpparser/include/hpack.hh:78-90 | the three fields change as specified and stay in agreement |
| `HeaderTable.MapTable.PopBack` | httpparser/include/hpack.hh:92-119 | the three fields change as specified and stay in agreement |
| `HeaderTable.MapTable.Clear` | httpparser/include/hpack.hh:129-133 | everything is emptied |
| `HeaderTable.DynamicTable.UpdateSize` | httpparser/include/hpack.hh:148-154 | the loop leaves the lines added first, as many as the new size allows |
| `HeaderTable.DynamicTable.Insert` | httpparser/include/hpack.hh:156-162 | a full table is emptied before the line is added; what that leaves is the subject of `HeaderTable.InsertKeeps` and `HeaderTable.InsertsFromEmpty` |
| `NumberText.PutDigit` | serverlib/include/iot/core/math.hh:91-97 | one turn moves the last digit of what is left behind what is written, to be reversed |
| `NumberText.ToString` | serverlib/include/iot/core/math.hh:82-109 | the do-while loop and the reversal in place leave the digits, most significant first, and touch nothing else |
| `NumberText.ReverseRange` | serverlib/include/iot/core/math.hh:103 | reversal in place of a range |
| `NumberText.ToUint` | serverlib/include/iot/core/math.hh:123-137 | the 16-bit value of the text up to its NUL, and the characters read |
| `NumberText.NumberOfDigits` | serverlib/include/iot/core/math.hh:82-137 | reading the digits of a number gives the number, in both radixes and cases |
| `NumberText.DigitsSpell` | serverlib/include/iot/core/math.hh:82-109 | the digits printed are a positional numeral of base 10 or 16 for the number, in the letters of the case asked for |
| `NumberText.NumberSpelled` | serverlib/include/iot/core/math.hh:123-137 | any numeral of base 10 or 16, in either case and with any leading zeros, is read as its number modulo 2^16 |
| `NumberText.OtherIsZero` | serverlib/include/iot/core/math.hh:36-53 | a character that is no hexadecimal digit counts as 0 |
| `NumberText.NoLeadingZero` | serverlib/include/iot/core/math.hh:92-98 | no leading zeros (section 4.1 of RFC 5952) |
| `NumberText.RoundTrip` | serverlib/include/iot/core/math.hh:82-137 | printing a number and reading it up to its NUL gives it back |
| `Ipv6Text.TextLength` | serverlib/include/iot/core/ipv6addr.hh:29 | the text of any address with its NUL fits 40 bytes |
| `Ipv6Text.FirstPass` | serverlib/include/iot/core/ipv6addr.hh:40-60 | on a text of eight groups with or without a double colon the first pass counts the colons and finds the second colon of the double colon |
| `Ipv6Text.SkipsTheRun` | serverlib/include/iot/core/ipv6addr.hh:62-78 | after the double colon the second pass stands behind the run, or at group 7 when the run ends the address, unless the run is the first group alone |
| `Ipv6Text.FillFromStart` | serverlib/include/iot/core/ipv6addr.hh:62-86 | on such a text the second pass fills in the address, for a run at the start, in the middle, at the end, or none |
| `Ipv6Text.ParsePrinted` | serverlib/include/iot/core/ipv6addr.hh:36-140 | parsing undoes printing for every address |
| `Ipv6Text.ParseTextIff` | serverlib/include/iot/core/ipv6addr.hh:36-91 | every text of eight hexadecimal groups with or without one double colon, in any case and with leading zeros, is read as the address it stands for, the high byte of each group stored first, if and only if the double colon is not in front for a single group |
| `Ipv6Text.GroupDenotes` | serverlib/include/iot/core/ipv6addr.hh:120 | the group stored as lo * 256 + hi is printed as a hexadecimal numeral for hi * 256 + lo |
| `Ipv6.FindRun` | serverlib/include/iot/core/ipv6addr.hh:97-111 | the run found is the leftmost longest run of at least two zero groups, or none if there is none (sections 4.2.2 and 4.2.3 of RFC 5952) |
| `Ipv6.RunIsUnique` | serverlib/include/iot/core/ipv6addr.hh:97-111 | the leftmost longest run is determined by the address |
| `Ipv6.PrintGroup` | serverlib/include/iot/core/ipv6addr.hh:120-126 | a group in hexadecimal, and a colon unless it is the last |
| `Ipv6.Print` | serverlib/include/iot/core/ipv6addr.hh:94-140 | the buffer holds the text with that run compressed, within 40 bytes, and nothing else is touched; `Ipv6Text.GroupDenotes` says which bytes its groups are |
| `Ipv6.ParseAddress` | serverlib/include/iot/core/ipv6addr.hh:37-91 | both loops compute the specified passes; no result exactly where the source would write outside the address or fail its assertion |
| `Ipv6.FillAddress` | serverlib/include/iot/core/ipv6addr.hh:62-86 | the second loop computes the second pass |
| `Ipv6.RoundTrip` | serverlib/include/iot/core/ipv6addr.hh:36-140 | printing into a 40-byte buffer and parsing it returns the address |
| `Ipv6.PrintSocket` | serverlib/include/iot/core/ipv6addr.hh:155-166 | bracketed address, colon, decimal port and NUL within 48 bytes |
| `Ipv6.ParseSocket` | serverlib/include/iot/core/ipv6addr.hh:142-150 | the address up to the bracket and the port two characters behind it |
| `Ipv6.PortDenotes` | serverlib/include/iot/core/ipv6addr.hh:155-166 | the port stored as lo * 256 + hi is printed as a decimal numeral for hi * 256 + lo |
| `Ipv6.ParseSocketIff` | serverlib/include/iot/core/ipv6addr.hh:142-150 | every bracketed text of eight groups and every decimal port behind it are read as the socket they stand for, if and only if the double colon is not in front for a single group |
| `Ipv6.LoopbackText` | serverlib/include/iot/core/ipv6addr.hh:94-166 | the loopback address and port 80, as stored, have the text "[::1]:80" |
| `Ipv6.SocketRoundTrip` | serverlib/include/iot/core/ipv6addr.hh:142-166 | parsing undoes printing for every socket |
| `Logger.FlushStepInv` | serverlib/lib/log.cc:83-103 | every step of the flush routine, with each read of the write position a step of its own, keeps: what lies between the positions are the entries not yet in the file |
| `Logger.FlusherStepInv` | serverlib/lib/log.cc:53-58 | every step of the flusher keeps the invariant and does not disturb the logging thread |
| `Logger.CopyByteInv` | serverlib/include/iot/core/log.hh:270-273 | copying a byte of an entry keeps it |
| `Logger.PublishEntryInv` | serverlib/include/iot/core/log.hh:275 | advancing the write position publishes exactly the entry copied |
| `Logger.ResetInv` | serverlib/lib/log.cc:118-122 | resetting the positions after a flush keeps it, also between the two assignments |
| `Logger.StepInv` | serverlib/lib/log.cc:83-123 | every step of either thread keeps the invariant |
| `Logger.RunInv` | serverlib/lib/log.cc:83-123 | the invariant holds in every state of every interleaving |
| `Logger.NothingLost` | serverlib/lib/log.cc:83-123 | in every interleaving the file followed by the unflushed range is the logged entries in order: none lost or duplicated across resets |
| `Logger.NothingTorn` | serverlib/lib/log.cc:83-103 | whenever no thread is writing the file holds whole entries |
| `Logger.AssertionsHold` | serverlib/lib/log.cc:85-116 | both assertions hold where they are made, and a copy stays inside the buffer and leaves a byte behind it unless it starts the buffer |
| `Logger.NoDeadlock` | serverlib/lib/log.cc:112-121 | the flush outside the logger's own lock means that one of the threads can always step |
| `Logger.ProducerProceeds` | serverlib/include/iot/core/log.hh:254-276 | every step of a call of `log` lowers a measure; at its end the entry has been logged |
| `Logger.FlusherProceeds` | serverlib/lib/log.cc:83-103 | every step of a flush by the flusher lowers a measure |
| `LoggerList.SystemStepInv` | serverlib/lib/log.cc:36-66 | every step of any logging thread or of the flusher, which takes the loggers in any order, keeps the invariant of all loggers; loggers may be added |
| `LoggerList.SystemRunInv` | serverlib/lib/log.cc:36-123 | it holds in every state of every interleaving of any number of logging threads |
| `LoggerList.StepBytes` | serverlib/lib/log.cc:83-103 | what a step writes continues an unfinished write until its entries are done |
| `LoggerList.WriterHolds` | serverlib/lib/log.cc:52-66 | whoever is writing for a logger holds the mutex of the list |
| `LoggerList.FileInterleaves` | serverlib/lib/log.cc:52-123 | the file of all loggers is a sequence of whole entries and the beginning of at most one write; of it the entries of each logger, followed by those that wait in its buffer, are what it logged, in order |
| `LoggerList.FileIsWhole` | serverlib/lib/log.cc:52-123 | whenever no write is going on, the file is whole entries and the buffers hold exactly those that wait |
| `LoggerList.DrainWrites` | serverlib/lib/log.cc:52-103 | whenever the flusher gives the mutex of the list back, whatever any logger had logged when it took it is in the file, in order |
| `LoggerList.LeftShrinks` | serverlib/lib/log.cc:53-58 | while it holds the mutex the flusher goes to loggers that are left, to each once |
| `LoggerList.AnyNumberOfLoggers` | serverlib/lib/log.cc:36-50 | there are runs with any number of loggers |
| `LoggerList.HolderProceeds` | serverlib/lib/log.cc:52-121 | the holder of the list mutex can always step, or waits for a logger whose thread can |
| `LogReader.ReadsConserves` | serverlib/lib/log.cc:582-619 | a call moves entries from file to queue and gives out one of them; it gives out none only when nothing is left |
| `LogReader.CloseIff` | serverlib/lib/log.cc:607 | an entry is close to the oldest held back when they are less than 200000000 ns apart, in either direction |
| `LogReader.FarEndsCall` | serverlib/lib/log.cc:607-613 | an entry that is not is the last that the call takes in, and the oldest of all is given out |
| `LogReader.NearGoesOn` | serverlib/lib/log.cc:599-613 | an entry that is close is taken in and the call goes on |
| `LogReader.FarIsOldest` | serverlib/lib/log.cc:607-613 | an entry far from the oldest held back shows that nothing older is still to come |
| `LogReader.ReadsOldest` | serverlib/lib/log.cc:582-619 | what a call gives out is not younger than anything still to come, if no entry is late by more than the buffer time |
| `LogReader.EmitsSortedPermutation` | serverlib/lib/log.cc:582-619 | repeated calls emit a permutation of the file, in nondecreasing time if no entry is late by more than 200000000 ns |
| `LogReader.ReadsAllExists` | serverlib/lib/log.cc:582-619 | every state can be read to the end |
| `LogReader.ComesOutSortedIff` | serverlib/lib/log.cc:582-619 | a file comes out in order, whichever of equal timestamps goes first, if and only if, whenever an entry is far from the oldest held back, no later one is older than the oldest held then |
| `LogReader.BoundIsTight` | serverlib/include/iot/core/log.hh:314 | for every greater lateness there is a file that comes out in the wrong order |
| `LogReader.LogReader.ReadNext` | serverlib/lib/log.cc:562-580 | the next entry of the file, or none |
| `LogReader.LogReader.Pop` | serverlib/lib/log.cc:600-602 | an entry with the least timestamp leaves the queue |
| `LogReader.LogReader.IsClose` | serverlib/lib/log.cc:607 | whether the next entry is within the buffer time of the oldest held back |
| `LogReader.LogReader.ReadNextString` | serverlib/lib/log.cc:582-619 | the loop performs one specified call |
| `LogReader.ReadFile` | serverlib/lib/log.cc:582-619 | reading a whole file: a permutation, sorted when no entry is late by more than the buffer time |
| `FormatString.FormatStringCount` | serverlib/include/iot/core/varadic.hh:72-132 | the loop computes the counting automaton |
| `FormatString.FormatStringTypeList` | serverlib/include/iot/core/varadic.hh:141-350 | the loop computes the type list and its length |
| `FormatString.CheckFormatString` | serverlib/include/iot/core/varadic.hh:405-615 | the loop computes the check; it returns success exactly when no step has returned a code |
| `FormatString.CreateLogsString` | serverlib/lib/log.cc:388-538 | the walk reads the specified types and moves that far through the arguments |
| `FormatString.RunAgrees` | serverlib/include/iot/core/varadic.hh:72-615 | check, count and list stay in step on every prefix, but for one bad entry for each modifier `L` |
| `FormatString.AcceptedTypes` | serverlib/include/iot/core/varadic.hh:72-615 | for an accepted string the type list is the types of the counted arguments if and only if no specifier has the modifier `L` |
| `FormatString.LengthIsTotal` | serverlib/include/iot/core/varadic.hh:136-350 | the list's length is the sum of the sizes of its types |
| `FormatString.ListConversion` | serverlib/include/iot/core/varadic.hh:162-240 | the inner switches list the specified type for each modifier |
| `FormatString.CheckedType` | serverlib/include/iot/core/varadic.hh:423-521 | the inner switches compare with the specified type for each modifier, or return the error of the string |
| `FormatString.CheckedCustomType` | serverlib/include/iot/core/varadic.hh:566-609 | the switch behind `%v` compares with its type, or returns the error of the string |
| `FormatString.ListCustomType` | serverlib/include/iot/core/varadic.hh:292-350 | the switch behind `%v` lists its type, or the bad entry |
| `FormatString.ReadCustomType` | serverlib/lib/log.cc:517-535 | the switch behind `%v` reads its type, or nothing |
| `FormatString.ReadConversion` | serverlib/lib/log.cc:414-488 | the inner switches read the specified type for each modifier |
| `FormatString.ReaderRun` | serverlib/lib/log.cc:388-538 | on every prefix of an accepted string without `L` whose `%c` are settled, the reader has taken what the list has, but for bare floats, and stands where it finds back |
| `FormatString.ReaderTakesWhatIsStored` | serverlib/lib/log.cc:388-538 | among accepted strings without `L` whose `%c` are settled, the reader consumes the list's length if and only if there is no `%F` and no bare `%f`; then it reads exactly the types of the list |
| `FormatString.StoredIsReadBack` | serverlib/include/iot/core/varadic.hh:39-43 | then every argument is read back where it was stored |
| `FormatString.LeftIsMissed` | serverlib/lib/log.cc:404-492 | an argument whose specifier the reader has left is never made up for |
| `FormatString.HasRejoined` | serverlib/lib/log.cc:490-510 | a reader that takes nothing it should not behind a `%c` has found back from the text that follows |
| `FormatString.InStepIff` | serverlib/lib/log.cc:388-538 | for every accepted string the reader takes each argument where it stands and as it was stored if and only if there is no `L`, no `%F`, no bare `%f`, and every `%c` has no modifier and is followed by text from which the reader finds back |
| `FormatString.CharIsMisread` | serverlib/lib/log.cc:490-492 | `%c%d` is accepted, and the reader consumes 1 of its 5 bytes |
| `FormatString.ReadByAccident` | serverlib/lib/log.cc:490-492 | `%cc%c` is read with the right types and not in step |
| `FormatGrammar.AcceptedIff` | serverlib/include/iot/core/varadic.hh:405-615 | a string is accepted with its arguments if and only if it is made of characters, specifiers that ask for the types of the first arguments in order, and `%%` where an argument is left |
| `FormatGrammar.LengthIsWidth` | serverlib/include/iot/core/varadic.hh:136-350 | without `L`, the length computed for an accepted string is the sum of the widths of its specifiers: 1, 2, 4, 8, 16 or 18 bytes |
| `FormatGrammar.LonePercent` | serverlib/include/iot/core/varadic.hh:136-350 | a string that ends behind a percent sign has two bad entries more in its type list and is not accepted |
| `FormatGrammar.ErrorNamesArgument` | serverlib/include/iot/core/varadic.hh:405-615 | the code of a rejected string is 0x10000 or 0x20000 plus the number of arguments that the text before the error fits |
| `RequestList.InsertPlaces` | httpparser/include/http2.hh:644-676 | the new node stands directly behind its dependency, behind a new dummy for it, or at the end; the rest keeps its order |
| `RequestList.InsertGood` | httpparser/include/http2.hh:644-679 | insertion keeps the chain free of repetitions and the index inside it, and adds exactly the node and a dummy made |
| `RequestList.RunGood` | httpparser/include/http2.hh:644-679 | after any inserts the chain holds what it held, every node inserted and every dummy made, each once and nothing else; earlier order is kept, and every index target is in the chain |
| `RequestList.InsertIndexes` | httpparser/include/http2.hh:644-679 | an insert leaves the index entries that are there, leads an unknown dependency to its dummy and a new stream to its node, and adds no other |
| `RequestList.RunIndexes` | httpparser/include/http2.hh:644-679 | after any inserts a stream leads to what the first insert that mentions it, as its own or as a dependency, has brought for it |
| `RequestList.RequestChain.Append` | httpparser/include/http2.hh:653-674 | linking at the end rewires last and first so that the chain from first grows by the nodes |
| `RequestList.RequestChain.LinkBehind` | httpparser/include/http2.hh:661-666 | rewiring two links inserts the node behind another, also behind the last |
| `RequestList.RequestChain.AppendWithDummy` | httpparser/include/http2.hh:648-659 | an unknown dependency gets a node of its own in front of the new one |
| `RequestList.RequestChain.Insert` | httpparser/include/http2.hh:644-679 | the linked nodes, first, last and the index change as specified; the chain stays acyclic and ends at last |
| `RequestList.RequestChain.Destroy` | httpparser/include/http2.hh:635-642 | every node is deleted, none twice, and none is read after it was deleted, as `Next` and `Delete` require |
| `DataFrames.HeaderFields` | httpparser/include/http2.hh:150-172 | a receiver reads length, type and flags of a frame header as set; the stream loses bit 7 of its low byte |
| `DataFrames.HeaderBytes` | httpparser/include/http2.hh:150-172 | the nine bytes: three of the length, type, flags, four of the stream, each with the high byte first |
| `DataFrames.TypeNumbers` | httpparser/include/http2.hh:45-56 | a frame type has its number in section 11.2 of RFC 7540 |
| `DataFrames.StreamKeptIff` | httpparser/include/http2.hh:161-172 | the receiver of a header that was set finds its stream identifier if and only if the low byte is below 128 |
| `DataFrames.DeframeAll` | httpparser/include/http2.hh:132-172 | a receiver finds the frames that were sent, in order, on their streams as they are on the wire (section 4.1 of RFC 7540) |
| `DataFrames.SplitIsRight` | deviceserver/include/iothttpevent.hh:542-584 | the payloads are the file, each frame is a DATA frame of 16384 bytes, the last one of up to as many; END_STREAM stands on the last one alone (section 6.1 of RFC 7540) |
| `DataFrames.ReceivedFile` | deviceserver/include/iothttpevent.hh:542-584 | what a receiver takes apart are DATA frames with the file's content, all on one stream, the last of which ends it |
| `DataFrames.RequestOnWire` | httpparser/include/http2.hh:149-163 | the stream read from a request, set in an answer and read by the client is the client's, or 128 less |
| `DataFrames.AnsweredOnItsStreamIff` | httpparser/include/http2.hh:687 | whatever header a request came with, the DATA frames answering it carry the file, on the stream of the request if and only if the low byte of its identifier is below 128, and otherwise on the one that is 128 less |
| `DataFrames.Stream129` | httpparser/include/http2.hh:149-163 | a request on stream 129 is answered on stream 1 |
| `WriteQueue.PushConserves` | serverlib/include/iot/net/serverevent.hh:121-124 | pushing adds the buffer behind what is to be sent |
| `WriteQueue.DrainConserves` | serverlib/include/iot/net/serverevent.hh:183-217 | the loop keeps the stream of sent and queued bytes, but for as many bytes as failing writes throw away |
| `WriteQueue.WriteConserves` | serverlib/include/iot/net/serverevent.hh:183-217 | sent bytes followed by the remainder are unchanged by `write_all` if and only if no write fails with something left |
| `WriteQueue.DrainSurvives` | serverlib/include/iot/net/serverevent.hh:183-217 | also when writes fail, sent bytes and remainder are the stream without the buffers whose writes failed, in order |
| `WriteQueue.DrainStops` | serverlib/include/iot/net/serverevent.hh:183-217 | the loop ends with an empty queue or at the first write that takes a part of its buffer; that part is marked, and the buffers behind it are as they were |
| `WriteQueue.WriteState` | serverlib/include/iot/net/serverevent.hh:183-217 | after `write_all` the state is SOCKET_PEER_WRITE exactly when the queue is not empty |
| `WriteQueue.RunConserves` | serverlib/include/iot/net/serverevent.hh:107-217 | over any run without failures sent bytes and remainder are all pushed bytes in order, however the socket cuts them |
| `WriteQueue.ServerPeer.PushWrite` | serverlib/include/iot/net/serverevent.hh:121-124 | the queue grows by the buffer |
| `WriteQueue.ServerPeer.WriteAll` | serverlib/include/iot/net/serverevent.hh:183-217 | the loop performs the specified writes |
| `FileResponse.InitFrame` | httpparser/include/http2.hh:166-172 | the header bytes are stored at the start of the buffer |
| `FileResponse.PushFrame` | deviceserver/include/iothttpevent.hh:548-563 | one frame is built in the write buffer and pushed as a copy |
| `FileResponse.SendFile` | deviceserver/include/iothttpevent.hh:542-584 | the loop queues the DATA frames of the file, one buffer each |
| `FileResponse.FramesQueued` | deviceserver/include/iothttpevent.hh:542-584 | queuing frames adds their bytes in order to what is to be sent |
| `FileResponse.SentFileArrives` | deviceserver/include/iothttpevent.hh:542-584 | whatever was sent or queued before, over any run of `write_all` without failures that empties the queue, the receiver has behind it the file in DATA frames |
| `JsonText.PutLast` | thirdparty/SimpleJSON/json.hpp:466 | a key greater than all others goes to the end of the map |
| `JsonText.LessIff` | thirdparty/SimpleJSON/json.hpp:466 | one key is less than another exactly when it is a proper beginning of it or the first characters that differ are in that order |
| `JsonText.PutFound` | thirdparty/SimpleJSON/json.hpp:466 | the value just put is found under its key, and every other key keeps what it had |
| `JsonText.PutOrdered` | thirdparty/SimpleJSON/json.hpp:466 | putting a value keeps the keys in order, each once |
| `JsonText.SameMap` | thirdparty/SimpleJSON/json.hpp:466 | fields in order are determined by what is found under each key |
| `JsonText.PutAllHolds` | thirdparty/SimpleJSON/json.hpp:448-482 | members put in any order hold the last value of each key |
| `JsonRoundTrip.Unescape` | thirdparty/SimpleJSON/json.hpp:513-549 | `parse_string` undoes `json_escape` |
| `JsonRoundTrip.ParseInt` | thirdparty/SimpleJSON/json.hpp:551-599 | a printed number is read back when a separator follows, and becomes null at the end of the text |
| `JsonRoundTrip.ParseItems` | thirdparty/SimpleJSON/json.hpp:484-511 | the loop of `parse_array` reads back printed items |
| `JsonRoundTrip.ParseMembers` | thirdparty/SimpleJSON/json.hpp:448-482 | the loop of `parse_object` reads back printed members in any order, repeated keys included, through their white space |
| `JsonRoundTrip.ParseDump` | thirdparty/SimpleJSON/json.hpp:337-642 | a printed value is read back wherever it stands |
| `JsonRoundTrip.MembersInAnyOrder` | thirdparty/SimpleJSON/json.hpp:448-482 | an object text with its members in any order, repeated keys included, loads to the object that holds the last value of each key |
| `JsonRoundTrip.NextGood` | thirdparty/SimpleJSON/json.hpp:448-642 | whatever is parsed has the fields of every object in order, each key once, and all keys in escaped form |
| `JsonRoundTrip.RoundTripIff` | thirdparty/SimpleJSON/json.hpp:337-647 | `Load(dump(v))` is v if and only if v is not a bare number, the fields of its objects are in order and all its keys are in escaped form |
| `JsonRoundTrip.LoadedComesBack` | thirdparty/SimpleJSON/json.hpp:337-647 | whatever text was loaded, dumping the value and loading it again gives it back, if and only if it is no bare number |
| `JsonRoundTrip.ItemWithoutComma` | thirdparty/SimpleJSON/json.hpp:494-505 | an item without a separator behind it drops the whole array and leaves what follows |
| `JsonRoundTrip.MemberWithoutColon` | thirdparty/SimpleJSON/json.hpp:459-463 | a key without a colon behind it keeps the members before it and leaves what follows |
| `JsonRoundTrip.EscapesWritten` | thirdparty/SimpleJSON/json.hpp:28-42 | quote, backslash and the five control characters are written with a backslash and their letter, every other character as it is |
| `JsonRoundTrip.EscapesRead` | thirdparty/SimpleJSON/json.hpp:513-549 | the eight escapes are read as their characters, and any other as a backslash |
| `JsonRoundTrip.UnicodeRead` | thirdparty/SimpleJSON/json.hpp:529-543 | four hexadecimal digits behind a `u` are left as they stand |
| `JsonRoundTrip.UnicodeBroken` | thirdparty/SimpleJSON/json.hpp:529-543 | without four such digits the string is lost and what is left begins with the `u` |
| `JsonRoundTrip.SpaceSkipped` | thirdparty/SimpleJSON/json.hpp:444-446 | spaces, tabs and line ends in front of a value are skipped, and nothing else is |
| `JsonRoundTrip.NumberWritten` | thirdparty/SimpleJSON/json.hpp:337-379 | numbers are written as decimal numerals without leading zeros, with a sign if they are negative |
| `JsonRoundTrip.NumberBroken` | thirdparty/SimpleJSON/json.hpp:551-599 | a number with any other character behind it than a blank, a comma or a closing bracket becomes null, and that character is lost |
| `JsonRoundTrip.ArrayLayout` | thirdparty/SimpleJSON/json.hpp:356-364 | arrays are written on one line with a comma and a blank between items |
| `JsonRoundTrip.ObjectLayout` | thirdparty/SimpleJSON/json.hpp:344-354 | objects are written with one field on a line |
| `JsonRoundTrip.FieldLayout` | thirdparty/SimpleJSON/json.hpp:344-354 | a field is written behind two blanks as quoted key, colon between blanks, and value |
| `JsonCode.JsonEscape` | thirdparty/SimpleJSON/json.hpp:28-42 | the loop computes the escaped text |
| `JsonCode.DumpValue` | thirdparty/SimpleJSON/json.hpp:337-379 | the appended text is the specified one |
| `JsonCode.DumpArray` | thirdparty/SimpleJSON/json.hpp:356-364 | the loop over the items |
| `JsonCode.DumpObject` | thirdparty/SimpleJSON/json.hpp:344-354 | the loop over the fields |
| `JsonCode.ConsumeWs` | thirdparty/SimpleJSON/json.hpp:444-446 | the offset moves to the first character that is no white space |
| `JsonCode.ParseString` | thirdparty/SimpleJSON/json.hpp:513-549 | the loop computes the specified string and offset, with the escapes, the unicode form and its error exit |
| `JsonCode.ParseNumber` | thirdparty/SimpleJSON/json.hpp:551-599 | the loop computes the specified number, or the error value and offset |
| `JsonCode.ParseBool` | thirdparty/SimpleJSON/json.hpp:601-613 | true, false, or null without moving |
| `JsonCode.ParseNull` | thirdparty/SimpleJSON/json.hpp:615-623 | null, moving only over the word |
| `JsonCode.ParseArray` | thirdparty/SimpleJSON/json.hpp:484-511 | the loop computes the specified array, also on malformed text |
| `JsonCode.ParseObject` | thirdparty/SimpleJSON/json.hpp:448-482 | the loop computes the specified object, also on malformed text |
| `JsonCode.ParseNext` | thirdparty/SimpleJSON/json.hpp:625-642 | dispatch on the first character |
| `JsonCode.LoadText` | thirdparty/SimpleJSON/json.hpp:644-647 | `Load` is the specified parse |
| `Base64.StandardInverse` | serverlib/include/iot/core/math.hh:55-79 | the two tables undo each other, no character of the alphabet is the padding, and the 8-bit arithmetic puts a split group together again |
| `Base64.InAlphabet` | serverlib/include/iot/core/math.hh:55-79 | the table of characters is the alphabet of section 4 of RFC 4648 |
| `Base64.OtherIsZero` | serverlib/include/iot/core/math.hh:55-79 | a character outside the alphabet counts as 0 |
| `Base64.SplitBits` | serverlib/include/iot/core/math.hh:217-235 | the four sextets are the 24 bits of three bytes, most significant first |
| `Base64.DecodeGroup` | serverlib/include/iot/core/math.hh:217-235 | one turn of the loop writes the one to three bytes of a group |
| `Base64.Base64Decode` | serverlib/include/iot/core/math.hh:210-239 | the loop writes the specified bytes and touches nothing else |
| `Base64.DecodeEncoded` | serverlib/include/iot/core/math.hh:210-239 | decoding undoes the encoding of section 4 of RFC 4648 for every byte string |
| `Base64.DecodeLenIff` | serverlib/include/iot/core/math.hh:200-208 | for texts of any length the announced length is what is written if and only if padding stands in the last whole group alone and the characters behind it, up to three, make up for the length they add |
| `Base64.DecodedFitsIff` | serverlib/include/iot/core/math.hh:200-239 | for texts of any length what is written fits the announced length if and only if padding stands before the last whole group, or the characters behind it announce no less than it holds |
| `Base64.OneTooMany` | serverlib/include/iot/core/math.hh:200-239 | a whole group followed by one padding character announces two bytes, and three are written |
| `Base64.EncodedLength` | serverlib/include/iot/core/math.hh:200-239 | for every encoding the announced length is what is written |
| `ETag.MatchEtag` | httpparser/lib/http11.cc:128-153 | the one-pass automaton answers whether one of the split pieces is the tag; false without the header |
| `ETag.ClosedIffRun` | httpparser/lib/http11.cc:137-142 | the pieces closed by a delimiter are the runs between delimiters |
| `ETag.MatchesIffRun` | httpparser/lib/http11.cc:128-153 | a header matches exactly when a maximal run of characters other than space, comma and quote is the tag |
| `ETag.DelimitedNeverMatches` | httpparser/lib/http11.cc:137-149 | a tag that contains a delimiter matches nothing |
| `ETag.TagWithoutNul` | httpparser/lib/http11.cc:128-136 | a NUL at the end of a tag does not count |

## Left out

- `malloc` that fails, and growth that would need a block of more than 2^32 bytes: the allocator requires that a grown block fits the 32-bit offsets of its threading loop; its debug assertion only bounds it by the 56 bits of a link.
- `free_debug` and the templated `alloc` and `free`: they are `Alloc` and `Free` with the size known at compile time, and construct an object in the payload.
- `executor_count` as a 32-bit integer: the counter is unbounded.
- An `execute` that closes by itself, and exceptions out of `execute`: the protocol is modelled with bodies that return.
- Weak memory effects, and the lifetime of a queue entry that `write_all` reads after popping it: sequential consistency, and the entry is copied first.
- Cleanup.EventDistributor.FinalDrain: the last drain of `event_distributor::cleanup` takes no lock; it is modelled as one operation after the others.
- `helperevent_executor` pause and resume: nothing but its own thread raises the count that it waits for.
- HPACK integers of more than one byte, and whole header blocks: continuation bytes are overwritten, literals are flagged as Huffman, and indices are off by 62 between writer and reader.
- `request::parse`: frame dispatch, padding, GOAWAY and PING; stream lookup, as nodes are inserted before their identifier is set.
- RequestList.RequestChain.Insert: `previous` links are never set by the source and are not modelled; header fields of a request are left out.
- Logger.NothingLost: writes to the file are taken to be complete, the list of loggers to be enabled, and entries to be no larger than the buffer.
- LoggerList.FileInterleaves: a logger that is destroyed flushes and leaves the list; it is modelled as one that logs nothing more.
- LogReader.LogReader.ReadNextString: the waiting (live) mode, in which the source sleeps until the file grows.
- LogReader.ReadFile: the waiting (live) mode, truncated files, and the difference of timestamps as a 64-bit integer that may overflow.
- FormatString.CreateLogsString: the text that is produced; the walk is modelled by what it reads.
- NumberText.ToString: signed numbers and radixes other than 10 and 16; indices of `char_to_int` beyond its 256 entries.
- Ipv6.ParseSocket: a text that ends before the port gives no result, where the source reads on behind it.
- JsonCode.ParseNumber: decimal points and exponents have no result, as in the next line.
- JsonParse.NumberBody: floating-point numbers and exponents; such texts, reads behind the text and exceptions of `stol` have no result in the model.
- JsonText.Dump: tabs other than the two spaces it is called with; the map of an object is the sequence of its fields in key order.
- FileResponse.SendFile: the header frame in front of the file, and the other responses of `process_request`.
- Sockets, TLS, epoll, inotify, file scanning, hashing, the HTTP/1.1 grammar, SQL, web pages and command lines: input and output around the cores.
