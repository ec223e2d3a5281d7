# Dawn: wire protocol, command streams and GPU lifetimes

Dafny models of the stateful core of Dawn, with proofs. `dafny verify dfyconfig.toml` checks
everything. Each module says at its head which source file it follows. Where the source updates an
object or an array in place, there is a class or a method with a loop, proved against a function on
values; the properties are then proved of the function and of runs of it.

- **Wire object and buffer-map protocol** (`NativeBuffer`, `WireModel`, `WireLane`,
  `WireLaneClient`, `WireLaneServer`, `WireLaneSteps`, `WireRequests`, `WireSystem`,
  `WireReferences`, `WireHistories`, `WireEndpoints`). Client calls, server handling, backend completions and reply handling are
  steps over two FIFO channels of whole messages. The invariant relates both object tables and
  both channels. It is proved for one id (a lane) and lifted to the table, which is followed by
  folding the pending commands over the server's entries. A mapping is identified by the request
  that led to it, so that "the server writes the data into the mapping the client accepted" can be
  stated. What each end holds and sends is also stated from the calls, commands and replies of a run
  alone.
- **Wire serializer** (`Bytes`, `WireFormat`, `WireRoundTrip`, `WireSerialize`, `WireSchemas`,
  `WireCommands`, `WireErrors`, `WireCodec`). Schemas are data. The layout of a record is defined
  apart from the code that writes it; decoding is its exact inverse, and serialization agrees with
  it for exactly the records called supported, among them those of every command of dawn.json.
- **Command stream** (`BitMath`, `CommandAllocation`, `CommandRuns`, `CommandBlocks`,
  `CommandMemory`, `PassUsage`, `StateTracker`, `CopyValidation`, `CommandValidation`,
  `CommandLegality`, `CommandBufferBuilder`, `CommandReplay`, `CommandRecorder`, `CommandEncoding`, `CommandReaders`,
  `CommandReferences`). Blocks are arrays of bytes at addresses; the iterator re-derives every
  address. Commands are recorded as ids, structures and data in those blocks, and read back by
  following ids and counts. Which streams are accepted is stated from the commands, the creation
  usages and sizes of resources, and unbounded arithmetic (`CommandLegality`); which accepted streams the D3D12 backend can replay is stated from
  what was set before each command.
- **Serials and GPU lifetime** (`SerialQueues`, `AllocatorPool`, `CommandAllocatorManager`,
  `BitSetIteration`). The queue refines a flat list; the pool is proved together with the fence,
  the command queue and the places where the device opens and closes command lists.
- **Texture copies and layouts** (`TextureCopySplitter`, `LayoutCache`, `LayoutHeap`,
  `LayoutObjects`).

## Where the code falls short

Some properties one would expect do not hold of the code as written. Each has a lemma with the
exact condition under which it holds, and one with a concrete input or run against it.

| property | holds exactly when | counterexample |
|---|---|---|
| the mapping stored under an id belongs to its object | no write mapping of a destroyed id completes late with success: `WireRequests.LateWriteSuccessIsExact` | `WireRequests.LateWriteSuccessBreaksUpdate` |
| a stale map completion is ignored | the number of requests accepted since is no multiple of 2^32, or no callback of its kind is pending: `NativeBuffer.CompletionFires` | `NativeBuffer.StaleCompletionFiresAfterWrap` |
| a mapped range lies in the buffer | its end does not wrap around: `NativeBuffer.PendingRangeExactly` | `NativeBuffer.WrappedRangeIsAccepted` |
| an object lives as long as it is referenced | its count stays below 2^32; in general the release at a multiple of 2^32 plus one destroys it: `WireReferences.DestroyedExactly` | `WireReferences.ReleaseAfterWrapDestroys` |
| serialized records are read back | the record is supported, as those of all commands of dawn.json are: `WireSerialize.RoundTripIsExact` | `WireSchemas.TwoNamesClash` |
| a command that names an error object is skipped whole | nothing is taken from the stream behind the first such name: `WireErrors.ErrorFraming` | the same lemma, with extra data |
| an accepted draw has matching bind groups | they match now, and not only at an earlier check of the pipeline: `StateTracker.StaleExactly` | `StateTracker.StaleRun` |
| an accepted texture copy stays in its buffer | texels have one byte and the counted bytes do not wrap around: `CommandLegality.OverrunsExactly` | `CommandLegality.AcceptedCopyOverruns` |
| D3D12 replays what validation accepts | the stream is replayable, which the row of `CommandReplay.ReplaysExactly` spells out | `CommandReplay.IndexBufferBeforePipeline` |
| an accepted copy is split | the offset is aligned, or row pitch and slice pitch are not zero in 32 bits: `TextureCopySplitter.AcceptedCopyIsSplit` | `TextureCopySplitter.SlicePitchWraps`, `TextureCopySplitter.EmptyCopyDivides` |
| a split copy hits the intended bytes | footprints do not wrap around and fit a row, and a start past the slice is of a single row that does not straddle: `TextureCopySplitter.AcceptedCopyIsSplit` | `TextureCopySplitter.OneRowGoesWrong` |
| destroying the device resets no allocator in use | no pending list is open: `AllocatorPool.DestructionIsSafeExactly` | `AllocatorPool.DestructionWithPendingList` |

The iterator's bound on a payload is stated in the source with the size of the size variable
(`src/dawn_native/CommandAllocator.cpp:125`); the model proves the bound with the payload's size.

## Model

| member | source | states |
|---|---|---|
| WireSystem.RunKeepsInv | generator/templates/dawn_wire/WireClient.cpp:124-193 | Every run of client calls, server handling, backend completions and reply handling, in any interleaving over the two FIFO channels, keeps the invariant that relates both object tables and both channels |
| WireSystem.NoRunIsRejected | generator/templates/dawn_wire/WireServer.cpp:66-142 | In every run neither side ever gives up on the stream, and folding the pending commands over the table of known objects gives exactly the client's table of ids and serials, so no creation or destruction of a correct client is refused |
| WireSystem.MatchedReplyIsAccepted | generator/templates/dawn_wire/WireClient.cpp:549-662 | After every run, a map reply that matches a live request has the kind of that request; a success also has its size and finds no mapped data, so the rejecting branches are unreachable |
| WireSystem.UpdateFindsItsMapping | generator/templates/dawn_wire/WireServer.cpp:574-597 | After every run, mapped data that reaches the server is accepted, and the mapping it meets is the one the client wrote it for, with equal length, although unmaps and replies cross in flight |
| WireSystem.OneSuccessPerEpoch | generator/templates/dawn_wire/WireClient.cpp:368-399 | While the client holds a mapping, no other reply on its way is a success for a request it still waits for |
| WireSystem.RequestsAnsweredOnce | generator/templates/dawn_wire/WireClient.cpp:81-100 | In every run the map requests issued for an id are its answered ones, each answered once, plus the outstanding ones; none is outstanding when nothing about the id is in flight |
| WireSystem.SerialNamesOneObject | generator/templates/dawn_wire/WireClient.cpp:139-173 | Serials of a slot never decrease, and an id that is live with the same serial later has been the same object all along, so a reply tagged with both reaches no other object |
| WireSystem.NewIdIsFree | generator/templates/dawn_wire/WireClient.cpp:139-183 | A new id names no live object and is either recycled or the next one past the table, as `New` asserts |
| WireSystem.HandleFollowsTable | generator/templates/dawn_wire/WireServer.cpp:440-448 | The head command always applies to the entry of its id, and once it is handled the commands left lead from the server's table to the client's |
| WireSystem.StepKeepsInv | generator/templates/dawn_wire/WireServer.cpp:304-346 | One step of either side, for whichever buffer, keeps the invariant of the whole system |
| WireReferences.LivesWhilePositive | generator/templates/dawn_wire/WireClient.cpp:300-320 | In every run in which 1 + references - releases of an id since its creation stays below 2^32: the object lives exactly while that sum is positive, and exactly the release that brings it to zero sends the one destruction; other releases send nothing |
| WireReferences.DestroyedExactly | generator/templates/dawn_wire/WireClient.cpp:300-320 | Without a bound: a step sends the destruction if and only if it is a release at a sum of one modulo 2^32 |
| WireReferences.ReleaseAfterWrapDestroys | generator/templates/dawn_wire/WireClient.cpp:318-320 | After a creation and 2^32 references, one release destroys the object: the bound is exact |
| WireHistories.ClientHoldsHistory | generator/templates/dawn_wire/WireClient.cpp:324-399 | After every run the client waits for exactly the requests made and neither answered nor unmapped since, each with its size and kind, and holds exactly the mapping of the last success since the last unmap |
| WireHistories.CallsSendExactly | generator/templates/dawn_wire/WireClient.cpp:324-399 | After every run a map call sends the start, size, kind and number of its request; an unmap answers exactly what waits, and sends data if and only if the last mapping given is for writing, with its serials and size |
| WireHistories.RepliesAnswerExactly | generator/templates/dawn_wire/WireClient.cpp:549-662 | After every run a reply fires exactly one callback if it is for the object now under its id and a request that waits, and none otherwise |
| WireHistories.NativeFollowsHistory | generator/templates/dawn_wire/WireServer.cpp:526-572 | After every run a known object is valid if and only if its creation succeeded, and its native buffer is where exactly the map commands, unmaps and completions since then lead the buffer that was created |
| WireHistories.ServerAnswersExactly | generator/templates/dawn_wire/WireServer.cpp:499-597 | After every run the messages sent for the head command: a map request is answered at once, and with an error, if and only if the object is invalid, the request is out of the range or the kinds of the buffer, or another is held since the last unmap; an unmap answers what is pending, or reports an error when nothing is held; a destruction answers what is pending |
| WireHistories.CompletionAnswersExactly | generator/templates/dawn_wire/WireServer.cpp:262-302 | After every run a completion is answered, with its status and the serials of the request, if and only if it is for the pending request; the server takes the mapping exactly for a successful write |
| WireLaneSteps.StepKeepsInv | generator/templates/dawn_wire/WireServer.cpp:526-597 | For one id: every admissible step succeeds and keeps the invariant over requests, pending commands, native state, mapping and replies |
| WireLaneSteps.CompleteKeepsInv | generator/templates/dawn_wire/WireServer.cpp:262-302 | A map completion of the buffer behind an id, with any serial and status, is absorbed without rejection |
| WireLaneServer.HandleUpdateKeepsInv | generator/templates/dawn_wire/WireServer.cpp:574-597 | The server accepts the data of a write mapping and finds the mapping it was sent for |
| WireLaneSteps.ReceiveKeepsInv | generator/templates/dawn_wire/WireClient.cpp:549-662 | The client accepts every reply at the head of its channel, whether it matches a request or is stale |
| WireRequests.StepKeepsAccount | generator/templates/dawn_wire/WireClient.cpp:81-100 | No admissible step fires a client map callback twice or drops one |
| WireRequests.StepKeepsLocated | generator/templates/dawn_wire/WireClient.cpp:324-366 | A request the client waits for is always a command no unmap follows, a pending native request, or a reply on its way |
| WireRequests.QuietMeansAnswered | generator/templates/dawn_wire/WireClient.cpp:573-610 | Once everything in flight has arrived, every request ever made has had exactly one callback |
| WireRequests.LateWriteSuccessIsExact | generator/templates/dawn_wire/WireServer.cpp:283-302 | From a state that satisfies the invariant, a step leaves the server with a mapping that is not of the object the id names, or a null dereference, if and only if it is a late success of a write mapping for a destroyed id |
| WireRequests.LateWriteSuccessBreaksUpdate | generator/templates/dawn_wire/WireServer.cpp:293-299 | A concrete run with such a late success after which the server refuses the mapped data of a correct client |
| WireEndpoints.WireClient.CreateBuffer | generator/templates/dawn_wire/WireClient.cpp:242-284 | The object table with its serial and free list is updated as the protocol step says and the creation command carries the id and serial |
| WireEndpoints.WireClient.GetNewId | generator/templates/dawn_wire/WireClient.cpp:176-183 | Takes the id freed last, or counts up when none is free |
| WireEndpoints.WireClient.ReleaseBuffer | generator/templates/dawn_wire/WireClient.cpp:300-316 | The last release fires the outstanding callbacks, frees the id and sends the destruction; any other only counts down |
| WireEndpoints.WireClient.BufferMapAsync | generator/templates/dawn_wire/WireClient.cpp:324-366 | Records the request under its serial and sends it with that serial |
| WireEndpoints.WireClient.ClearMapRequests | generator/templates/dawn_wire/WireClient.cpp:91-100 | Fires the callback of every outstanding request once and forgets the requests |
| WireEndpoints.WireClient.BufferUnmap | generator/templates/dawn_wire/WireClient.cpp:368-399 | Sends the mapped data before the unmap exactly for a write mapping, drops the mapping and answers every request |
| WireEndpoints.WireClient.HandleMapCallback | generator/templates/dawn_wire/WireClient.cpp:549-662 | Handles a read or write map reply in the table as the protocol step says, including the rejecting branches |
| WireEndpoints.WireServer.Allocate | generator/templates/dawn_wire/WireServer.cpp:66-142 | Refuses exactly ids in use or past the next one, and otherwise resets the slot |
| WireEndpoints.WireServer.HandleCreateBuffer | generator/templates/dawn_wire/WireServer.cpp:421-493 | Allocates and then creates; an error object or a null result leaves an allocated invalid slot |
| WireEndpoints.WireServer.HandleDestroyBuffer | generator/templates/dawn_wire/WireServer.cpp:499-523 | Refuses the null id and ids not allocated, otherwise releases the native buffer and frees the slot |
| WireEndpoints.WireServer.HandleBufferMapAsync | generator/templates/dawn_wire/WireServer.cpp:526-572 | Forwards the request with the serials of buffer and request, or answers with an error for an invalid buffer |
| WireEndpoints.WireServer.HandleBufferUpdateMappedData | generator/templates/dawn_wire/WireServer.cpp:574-597 | Accepts exactly data of the length of the mapping the valid buffer has |
| WireEndpoints.WireServer.HandleBufferUnmap | generator/templates/dawn_wire/WireServer.cpp:405-412 | Forgets the mapping before the unmap is forwarded to the native buffer |
| NativeBuffer.CallbacksConserved | src/dawn_native/Buffer.cpp:79-167 | For every run of maps, unmaps and completions in any order: callbacks fired plus the pending one are, as a multiset, exactly the requests made |
| NativeBuffer.DestroyedBufferAnsweredAll | src/dawn_native/Buffer.cpp:56-61 | After any run, destruction completes the account: exactly one callback per request |
| NativeBuffer.RunsStayValid | src/dawn_native/Buffer.cpp:82-98 | In every run at most one callback is set, and only while mapped, so the assertions in the callback functions hold |
| NativeBuffer.MapIsPendingExactly | src/dawn_native/Buffer.cpp:113-151 | After every run of a buffer created with a size and usages: a request becomes pending if and only if the 32-bit end of its range is at most the size, its kind is one of the usages, and no such request was made since the last unmap; otherwise it fires one error callback and reports a device error |
| NativeBuffer.MappedExactly | src/dawn_native/Buffer.cpp:180-207 | After every run the buffer counts as mapped exactly while such a request is held |
| NativeBuffer.UnmapExactly | src/dawn_native/Buffer.cpp:153-167 | After every run an unmap is an error exactly when none is held; otherwise it answers the pending request with Unknown under its kind |
| NativeBuffer.PendingRangeExactly | src/dawn_native/Buffer.cpp:185-187 | A 32-bit range that is accepted lies in the buffer if and only if its end does not wrap around |
| NativeBuffer.WrappedRangeIsAccepted | src/dawn_native/Buffer.cpp:185-187 | A range accepted by an empty buffer |
| NativeBuffer.CompletionFires | src/dawn_native/Buffer.cpp:79-103 | The completion of an accepted request fires exactly when a callback of its kind is pending and the number of requests accepted since is a multiple of 2^32; it fires the last accepted request |
| NativeBuffer.SerialCountsAccepted | src/dawn_native/Buffer.cpp:113-151 | After every run the serial counts the accepted requests modulo 2^32 and a pending callback is that of the last one |
| NativeBuffer.StaleCompletionIsIgnored | src/dawn_native/Buffer.cpp:113-151 | With fewer than 2^32 requests accepted after it, a completion never fires the callback of another request |
| NativeBuffer.StaleCompletionFiresAfterWrap | src/dawn_native/Buffer.cpp:124-125 | A concrete run of 2^32 further requests after which a stale completion fires another request's callback: the bound is exact |
| NativeBuffer.BufferBase.MapReadAsync | src/dawn_native/Buffer.cpp:113-131 | Rejects with an error callback when the range, the mapped flag or the usage forbids it, otherwise becomes pending under the next serial |
| NativeBuffer.BufferBase.MapWriteAsync | src/dawn_native/Buffer.cpp:133-151 | The same for writing |
| NativeBuffer.BufferBase.CallMapWriteCallback | src/dawn_native/Buffer.cpp:92-103 | Fires and clears the pending write request only for the current serial |
| NativeBuffer.BufferBase.Unmap | src/dawn_native/Buffer.cpp:153-167 | Answers the pending request with Unknown and unmaps, or reports an error when not mapped |
| NativeBuffer.BufferBase.Destruct | src/dawn_native/Buffer.cpp:56-61 | Answers what is still pending and nothing else |
| WireSerialize.RoundTripIsExact | generator/templates/dawn_wire/WireCmd.cpp:141-258 | For every schema and record whose ids all resolve to valid objects: `Serialize` into `GetRequiredSize` bytes stays inside, and `Deserialize` returns the record and leaves any suffix untouched, if and only if every extra part is last where it is written |
| WireSerialize.RoundTrip | generator/templates/dawn_wire/WireCmd.cpp:327-343 | The supported direction in full: whatever the buffer held before and whatever follows in the stream |
| WireSerialize.SerializesLayout | generator/templates/dawn_wire/WireCmd.cpp:141-185 | A supported record fills a buffer of the required size with exactly its layout |
| WireSerialize.RecordSizes | generator/templates/dawn_wire/WireCmd.cpp:111-137 | Required size and written extent never exceed the layout, and equal it exactly for supported records |
| WireSerialize.FramesRecord | generator/templates/dawn_wire/WireCmd.cpp:141-185 | Serialization changes no byte outside the transfer structure and the extent behind it, for every record |
| WireRoundTrip.DecodesLayout | generator/templates/dawn_wire/WireCmd.cpp:190-258 | Decoding the layout of a record, with strings, counted arrays and nested structures, returns it and consumes exactly the layout |
| WireRoundTrip.DecodedFromLayout | generator/templates/dawn_wire/WireCmd.cpp:190-258 | Conversely, a stream that decodes starts with the layout of what was decoded, and every id in it resolves to a valid object |
| WireRoundTrip.DecodesExactlyLayouts | generator/templates/dawn_wire/WireCmd.cpp:338-343 | A stream decodes to a record exactly when it is the layout of that record followed by the rest |
| WireSchemas.ShapedIsSupported | generator/templates/dawn_wire/WireCmd.cpp:122-134 | Every record of a schema with at most one pointer-bearing nested structure, last and with count 1, is supported |
| WireCommands.CommandsMakeRoundTrip | dawn.json:21-1079 | Every command of dawn.json, with all its scalars, objects, strings, counted arrays and descriptors, makes the round trip whatever its record holds |
| WireCommands.SimpleIsShaped | dawn.json:21-1079 | Flat arguments or one descriptor give a schema of the supported shape |
| WireCommands.SetStageBytes | generator/templates/dawn_wire/WireCmd.cpp:83-107 | The bytes of one command with a string, for all arguments: id, self and values in order, the length of the string, its characters |
| WireCommands.SubmitBytes | generator/templates/dawn_wire/WireCmd.cpp:83-107 | The bytes of one command with a list of objects, for all lists: id, self, count, and the ids in order |
| WireSchemas.TwoNamesClash | generator/templates/dawn_wire/WireCmd.cpp:52-53 | With two nested structures that carry strings, which no command of dawn.json has, the nested call gets the buffer by value, and the round trip works if and only if the first string is empty |
| WireErrors.DecodingEnds | generator/templates/dawn_wire/WireCmd.cpp:190-258 | For every record, whatever its ids resolve to: decoding its layout ends at the first id that is not of a valid object, in the order the deserializer meets ids and takes bytes, with a fatal error or with just the bytes left that it has not taken |
| WireErrors.ErrorFraming | generator/templates/dawn_wire/WireCmd.cpp:206-253 | Wherever the first error object is named, in the command, in a nested structure or in an array, the next command is found in place if and only if nothing is taken from the stream behind it |
| WireErrors.ErrorSelfFraming | generator/templates/dawn_wire/WireCmd.cpp:206-211 | For a command on an error object: if and only if it has no extra data |
| WireCodec.GetExtraRequiredSize | generator/templates/dawn_wire/WireCmd.cpp:111-137 | The accumulating loop over strings, arrays and nested structures computes the required size |
| WireCodec.SerializeRecord | generator/templates/dawn_wire/WireCmd.cpp:141-185 | Fills the array in place exactly as the specification writes it, nested calls by value included |
| WireCodec.SerializeCommand | generator/templates/dawn_wire/WireCmd.cpp:331-336 | A supported command in a fresh buffer of the required size is exactly its layout |
| WireCodec.Reader.GetPtrFromBuffer | generator/templates/dawn_wire/WireCmd.cpp:276-289 | Takes exactly the asked bytes off the front, or fails and takes none |
| WireCodec.Reader.ReadRecord | generator/templates/dawn_wire/WireCmd.cpp:190-258 | Advances through the stream and agrees with the decoder in result, error and position |
| WireCodec.Reader.ReadCommand | generator/templates/dawn_wire/WireCmd.cpp:338-343 | Reads one command off the front with the result, error and position of the decoder |
| CommandRuns.RunIsFound | src/dawn_native/CommandAllocator.cpp:77-226 | For every run of allocations and payload writes from an empty allocator, with any behaviour of malloc: the iterator finds the same ids and payload addresses in order, then the end, and is back at the start; payloads lie in their blocks, are pairwise disjoint and hold what was last written |
| CommandRuns.AllocateRecords | src/dawn_native/CommandAllocator.cpp:171-206 | An allocation records its item behind the others; a failed one leaves what was recorded intact |
| CommandRuns.IteratorFinds | src/dawn_native/CommandAllocator.cpp:77-139 | Acquired blocks walked from the start give the recorded ids and addresses and then end where they began, so that a second walk is the same |
| CommandAllocation.WalksTrace | src/dawn_native/CommandAllocator.cpp:100-139 | A walk re-derives every address from alignment and in-band end tags alone |
| CommandAllocation.TraceApart | src/dawn_native/CommandAllocator.cpp:183-184 | Recorded payloads come in order and do not overlap |
| CommandAllocation.AsksForMore | src/dawn_native/CommandAllocator.cpp:193-200 | A new block keeps room for one id, and fits the allocation or makes the next request larger: the recursion ends |
| CommandBlocks.SmallAlignmentTakesOne | src/dawn_native/CommandAllocator.cpp:188-201 | Alignments up to four take at most one new block |
| CommandBlocks.EightTakesOne | src/dawn_native/CommandAllocator.cpp:188-201 | So does alignment eight when malloc returns addresses aligned to four |
| CommandBlocks.HonouredAlignmentTakesTwo | src/dawn_native/CommandAllocator.cpp:188-201 | An alignment malloc honours takes at most two new blocks |
| CommandBlocks.AnyAlignmentIsBounded | src/dawn_native/CommandAllocator.cpp:188-201 | Whatever addresses malloc returns, a power-of-two alignment takes at most a quarter of it in new blocks, or one |
| CommandBlocks.RunBlockSizes | src/dawn_native/CommandAllocator.cpp:212-226 | In every run a block has at least 4096 bytes and at most 16384 or what the largest request needs |
| CommandBlocks.RunDoublesBlocks | src/dawn_native/CommandAllocator.cpp:212-216 | In every run of requests that fit 4096 bytes, while malloc succeeds, block k has min(4096 * 2^k, 16384) bytes |
| CommandMemory.CommandAllocator.Allocate | src/dawn_native/CommandAllocator.cpp:171-206 | Updates cursors, blocks and block bytes in place exactly as the specification, keeping room for one id (the invariant of CommandAllocator.h) |
| CommandMemory.CommandAllocator.GetNewBlock | src/dawn_native/CommandAllocator.cpp:212-226 | Doubles the block size up to 16384 or takes the minimum asked for; a failure adds no block |
| CommandMemory.CommandAllocator.AcquireBlocks | src/dawn_native/CommandAllocator.cpp:160-169 | Ends the last block with a tag and hands the blocks over |
| CommandMemory.CommandIterator.NextCommandId | src/dawn_native/CommandAllocator.cpp:100-121 | Reads the next id, crosses end tags into the next block, and resets at the end |
| CommandMemory.CommandIterator.NextData | src/dawn_native/CommandAllocator.cpp:132-139 | Takes the data behind its in-band id |
| CommandMemory.RecordAndReplay | src/dawn_native/CommandAllocator.cpp:71-75 | The loop over an iterator made from an allocator returns the recorded ids and payload addresses in order |
| BitMath.PowerOfTwoTest | src/common/Math.cpp:47-50 | The mask test holds exactly for powers of two |
| BitMath.PtrAlignedTest | src/common/Math.cpp:52-56 | The mask test is divisibility |
| BitMath.AlignRoundsUp | src/common/Math.cpp:58-63 | Adding and masking is the least multiple not below, unless the sum wraps |
| BitSetIteration.ScanForwardIsLowest | src/common/Math.cpp:23-33 | The result is the lowest set bit |
| BitSetIteration.SkipsWords | src/common/BitSetIterator.h:114-127 | Shifting out empty words keeps the set bits that are left and terminates at the next bit or at the end |
| BitSetIteration.AtEndExactly | src/common/BitSetIterator.h:103-106 | An iterator equals the end exactly when no bit is left |
| BitSetIteration.NextIsSound | src/common/BitSetIterator.h:95-101 | An iterator not at the end stands at the lowest bit left, and the next one is at the others |
| BitSetIteration.IterateBitSet | src/common/BitSetIterator.h:85-127 | For every size and bitset the loop visits exactly the set bits, each once, ascending |
| PassUsage.VerdictIsLegality | src/dawn_native/CommandBuffer.cpp:173-217 | For any sequence of uses, validation succeeds if and only if every resource is used as it may be, every buffer is read-only or single-usage, every texture has at most one usage, and no storage resource is used twice in compute |
| PassUsage.OrderIsIrrelevant | src/dawn_native/CommandBuffer.cpp:146-170 | What is tracked, and so verdict and acquired usages, does not depend on the order of uses |
| PassUsage.TrackedIsSummary | src/dawn_native/CommandBuffer.cpp:146-170 | The masks hold exactly the usages that occurred, and the flag says whether a storage use occurred twice |
| PassUsage.PassResourceUsageTracker.ValidateUsages | src/dawn_native/CommandBuffer.cpp:173-217 | The loops over both maps compute that verdict |
| PassUsage.PassResourceUsageTracker.AcquireResourceUsage | src/dawn_native/CommandBuffer.cpp:220-238 | The parallel vectors list every tracked resource once with its usage |
| StateTracker.AcceptedExactly | src/dawn_native/CommandBufferStateTracker.cpp:64-114 | In every run a draw or dispatch is accepted if and only if pipeline, index buffer and the vertex inputs of the current pipeline are in place and the bind groups match now or matched at an earlier check of this pipeline |
| StateTracker.VerdictExactly | src/dawn_native/CommandBufferStateTracker.cpp:64-136 | In every run the verdict of a check from what was set: which error is reported, when a null pointer is followed, and that a missing pipeline is never reported as such |
| StateTracker.InputsSetExactly | src/dawn_native/CommandBufferStateTracker.cpp:155-159 | After every run an input counts as set if and only if some vertex buffers were set in a range of slots with it |
| StateTracker.NeverTooStrict | src/dawn_native/CommandBufferStateTracker.cpp:64-85 | The cached check never rejects what a check from scratch accepts |
| StateTracker.AgreesWithoutChanges | src/dawn_native/CommandBufferStateTracker.cpp:138-168 | If no bind group changed since the last successful comparison, cached and fresh check agree |
| StateTracker.StaleExactly | src/dawn_native/CommandBufferStateTracker.cpp:147-149 | The cached check accepts what the fresh one rejects if and only if the groups matched at an earlier check of this pipeline and no longer do |
| StateTracker.StaleRun | src/dawn_native/CommandBufferStateTracker.cpp:147-149 | A concrete run where this happens |
| StateTracker.CommandBufferStateTracker.ValidateOperation | src/dawn_native/CommandBufferStateTracker.cpp:64-136 | Verdict, first missing aspect and updated cache of the lazy recomputation |
| StateTracker.CommandBufferStateTracker.SetPipelineCommon | src/dawn_native/CommandBufferStateTracker.cpp:161-168 | A new pipeline drops the lazily computed aspects |
| CommandValidation.AcceptedExactly | src/dawn_native/CommandBuffer.cpp:324-557 | A stream is accepted with certain usage records if and only if it is a sequence of valid copies and closed, non-nested passes that hold only commands ready and legal for their kind, and the records are those of its passes in order |
| CommandValidation.PassIsLegal | src/dawn_native/CommandBuffer.cpp:399-557 | Acceptance inside a pass is legality of its body and of its uses |
| CommandValidation.LegalIsAccepted | src/dawn_native/CommandBuffer.cpp:324-397 | Every legal stream is accepted with one record per pass |
| CommandValidation.AcceptedIsLegal | src/dawn_native/CommandBuffer.cpp:324-397 | Every accepted stream splits into such segments |
| CommandLegality.StreamAcceptedExactly | src/dawn_native/CommandBuffer.cpp:324-557 | A stream is accepted with certain records if and only if it is a sequence of legal copies and of closed passes, said from the commands: each belongs to its kind of pass and has the pipeline, buffers and groups it needs set before it (the groups now, or at an earlier draw or dispatch with the pipeline), and the resources bound, set and attached were created for that and are used in one way or only read, with no storage buffer bound twice in a compute pass; and each record holds exactly the usages of its pass |
| CommandLegality.ResourcesLegalExactly | src/dawn_native/CommandBuffer.cpp:144-272 | The uses of a pass are legal if and only if every storage, uniform, index and vertex buffer, sampled texture and attachment was created with its own usage, no buffer is written and used otherwise, no texture used in two ways, and no compute pass binds a storage buffer twice |
| CommandLegality.RecordIs | src/dawn_native/CommandBuffer.cpp:220-238 | The record of a pass has for each resource the usages the pass makes of it and no others |
| CommandLegality.BodyLegalUpTo | src/dawn_native/CommandBuffer.cpp:399-557 | The commands of a pass are accepted by both trackers exactly when each belongs to the pass and has what it needs among those before it |
| CommandLegality.CopyAcceptedExactly | src/dawn_native/CommandBuffer.cpp:35-133 | A buffer copy alone is accepted if and only if both ranges end inside their buffers, in unbounded arithmetic, and the usages allow it; a texture copy if and only if its rectangle ends inside the mip level, offset and counted bytes end inside the buffer, and pitch, offset and usages are right |
| CommandLegality.OverrunsExactly | src/dawn_native/CommandBuffer.cpp:89-96 | A copy of a rectangle can reach past a buffer that is accepted for it if and only if texels have more than one byte or the counted bytes wrap around |
| CommandLegality.AcceptedCopyOverruns | src/dawn_native/CommandBuffer.cpp:89-96 | An accepted copy of two four-byte texels to a buffer of two bytes |
| CopyValidation.AcceptedRowsFit | src/dawn_native/CommandBuffer.cpp:103-115 | Rows of an accepted copy fit the row pitch unless a row is longer than 32 bits can say |
| CommandBufferBuilder.CommandBufferBuilder.ValidateGetResult | src/dawn_native/CommandBuffer.cpp:324-397 | The loop over the iterator gives the verdict of the specification and, on success, one usage record per pass in order |
| CommandBufferBuilder.CommandBufferBuilder.ValidatePass | src/dawn_native/CommandBuffer.cpp:399-557 | The two pass loops drive both trackers, stop where the specification stops, and append the record of their pass |
| CommandBufferBuilder.CommandBufferBuilder.TrackBindings | src/dawn_native/CommandBuffer.cpp:246-272 | Every binding of a group is tracked with its usage, samplers with none |
| CommandReplay.ReplaysExactly | src/dawn_native/d3d12/CommandBufferD3D12.cpp:83-147 | An accepted stream is replayed to its end if and only if: no push constants are set; index and vertex buffers, and groups with descriptors that are not already set, follow a pipeline set in their pass, vertex buffers go to inputs of it; a new pipeline in a pass finds every group it shares with the one before; no pipeline shares all groups with the one before, in this pass or an earlier one; and no texture copy divides by zero |
| CommandReplay.ReplayOfAccepted | src/dawn_native/d3d12/CommandBufferD3D12.cpp:242-417 | The replay of an accepted stream runs every command once and in order, each pass behind the barriers of its own record, or fails with the fault of the first command that cannot be replayed, or at once when all groups are inherited |
| CommandReplay.FaultsOfAccepted | src/dawn_native/d3d12/CommandBufferD3D12.cpp:279-303 | It always indexes the record of its own pass, never runs out of commands inside a pass, and reaches `UNREACHABLE` only if push constants are set |
| CommandReplay.ReplayConserves | src/dawn_native/d3d12/CommandBufferD3D12.cpp:279-417 | For a replayable stream, the commands executed are the stream and the barriers are the records of validation, each in order |
| CommandReplay.IndexBufferBeforePipeline | src/dawn_native/d3d12/CommandBufferD3D12.cpp:595-605 | A render pass with just an index buffer is accepted and follows a null pointer |
| CommandRecorder.Recorder.RecordPass | src/dawn_native/d3d12/CommandBufferD3D12.cpp:419-633 | The pass loops, with the bind group tracker and the last pipeline they update, consume exactly their pass and execute it |
| CommandRecorder.Recorder.SetBindGroup | src/dawn_native/d3d12/CommandBufferD3D12.cpp:94-134 | Sets the group and looks at the pipeline layout only for a group with descriptors that is not already set |
| CommandRecorder.Recorder.LookAtAll | src/dawn_native/d3d12/CommandBufferD3D12.cpp:158-203 | The first pass over the commands stays inside the bind groups exactly when no pipeline inherits all of them |
| CommandRecorder.Recorder.RecordCommands | src/dawn_native/d3d12/CommandBufferD3D12.cpp:242-417 | Both passes over the commands, with the pass counter, do what the replay says |
| CommandEncoding.CommandsAreRecorded | src/dawn_native/CommandBuffer.cpp:561-793 | Recording commands in an empty allocator leaves exactly their ids, structures with the count in place, and data, in order |
| CommandEncoding.RecordCommands | src/dawn_native/CommandBuffer.cpp:561-793 | The same with the allocator updated in place; a failed allocation leaves what was recorded before |
| CommandReaders.ReadCommands | src/dawn_native/Commands.cpp:26-200 | Each reader, `SkipCommand`, `FreeCommands`, the validator or the replay, reads ids and counts from memory and follows them: it sees the ids, counts and bytes of the commands in order, up to the end or to the first id it has no case for, and ends reset |
| CommandReaders.AcceptedIsCovered | src/dawn_native/CommandBuffer.cpp:324-557 | Skipping and freeing have a case for every id, the validator for every id of a stream it accepts, and so has the replay unless push constants are set |
| CommandReaders.TakeCommand | src/dawn_native/Commands.cpp:169-198 | The case for an id takes the structure and as much data as the count in memory says, and stands in front of the next command |
| CommandReaders.RecordAndRead | src/dawn_native/CommandAllocator.cpp:71-75 | Recording commands, handing the blocks to an iterator and reading them gives every reader just what was recorded |
| CommandReaders.AtChunk | src/dawn_native/CommandAllocator.cpp:100-139 | Behind any block boundary the iterator gives the id and the payload of the next allocation |
| CommandReferences.ReferenceCounts.RecordAll | src/dawn_native/CommandBuffer.cpp:561-793 | The assignments to `Ref` fields and the construction of references to vertex buffers leave in memory, and count, exactly the resources the commands name |
| CommandReferences.ReferenceCounts.FreeCommands | src/dawn_native/Commands.cpp:26-117 | The destructors called for the ids in memory give up exactly the references that are there |
| CommandReferences.RecordAndFree | src/dawn_native/Commands.cpp:26-117 | Recording and freeing any stream leaves all reference counts as they were |
| SerialQueues.SerialQueue.Enqueue | src/common/SerialQueue.h:118-150 | Appends one entry to the flat list |
| SerialQueues.SerialQueue.EnqueueAll | src/common/SerialQueue.h:138-150 | Appends a batch that is not empty, in order |
| SerialQueues.SerialQueue.IterateUpTo | src/common/SerialQueue.h:162-175 | The two-level iteration visits exactly the values with at most that serial, in the order enqueued |
| SerialQueues.SerialQueue.FindUpTo | src/common/SerialQueue.h:193-209 | The bucket found cuts the flat list into the entries up to the serial and those above it |
| SerialQueues.SerialQueue.ClearUpTo | src/common/SerialQueue.h:182-185 | Removes exactly the entries with at most that serial |
| SerialQueues.SerialQueue.FirstSerial | src/common/SerialQueue.h:187-191 | The smallest serial in the queue |
| SerialQueues.NextIsRest | src/common/SerialQueue.h:236-270 | Moving the iterator drops exactly the value it stood at from what is left, across buckets |
| AllocatorPool.RunsAreFine | src/dawn_native/d3d12/CommandAllocatorManager.cpp:29-67 | In every run of recording, submitting, presenting, ticking and GPU progress, free and in-flight allocators partition the pool, those not yet created are free, and a reservation never waits forever |
| AllocatorPool.RunResetsAreSafe | src/dawn_native/d3d12/CommandAllocatorManager.cpp:60-67 | In every run an allocator is reset only after the fence has reached its reservation serial, when neither a list being recorded nor queued work uses it |
| AllocatorPool.RunTickGivesBack | src/dawn_native/d3d12/DeviceD3D12.cpp:222-232 | After every run that ends with a device tick no allocator is in flight whose serial the fence had reached |
| AllocatorPool.TickGivesBack | src/dawn_native/d3d12/CommandAllocatorManager.cpp:60-67 | A tick leaves in flight exactly the entries above the fence, and frees exactly the others |
| AllocatorPool.RunQueuesLists | src/dawn_native/d3d12/DeviceD3D12.cpp:222-240 | In every run a tick, the end of a submit or a present puts every list being recorded on the queue in front of the signal of the serial its allocator was reserved at |
| AllocatorPool.ReserveSucceeds | src/dawn_native/d3d12/CommandAllocatorManager.cpp:29-58 | With at most one list open, a reservation obtains an allocator even from a full pool |
| AllocatorPool.DestructionIsSafeExactly | src/dawn_native/d3d12/DeviceD3D12.cpp:157-165 | After every run the destructor of the device waits for an end that comes, and its last tick resets only allocators not in use if and only if no pending list is open |
| AllocatorPool.DestructionWithPendingList | src/dawn_native/d3d12/DeviceD3D12.cpp:157-165 | A concrete run after which it resets the allocator of the list being recorded |
| AllocatorPool.WaitEnds | src/dawn_native/d3d12/DeviceD3D12.cpp:242-248 | Waiting for a serial that was handed out ends |
| AllocatorPool.StepKeepsInv | src/dawn_native/d3d12/DeviceD3D12.cpp:199-270 | Every step succeeds and keeps the invariant of fence, queue and pool |
| CommandAllocatorManager.CommandAllocatorManager.ReserveCommandAllocator | src/dawn_native/d3d12/CommandAllocatorManager.cpp:29-58 | Takes the least free allocator at the current serial, waiting for the oldest one when none is free |
| CommandAllocatorManager.CommandAllocatorManager.Tick | src/dawn_native/d3d12/CommandAllocatorManager.cpp:60-67 | Returns exactly the allocators up to the serial to the pool |
| CommandAllocatorManager.DeviceFence.NextSerial | src/dawn_native/d3d12/DeviceD3D12.cpp:238-240 | Signals the current serial and counts it up |
| TextureCopySplitter.SplitIsExact | src/dawn_native/d3d12/TextureCopySplitter.cpp:41-207 | In 32-bit arithmetic, for every row pitch and offset validation lets through: the split divides by zero if and only if the offset is unaligned and the row pitch or the slice pitch is zero; otherwise the regions partition the box, lie in footprints at a 512-aligned base and put every texel at its intended address if and only if no footprint wraps around or is wider than a row, and a start past the slice is of a single row that does not straddle |
| TextureCopySplitter.AcceptedCopyIsSplit | src/dawn_native/CommandBuffer.cpp:57-115 | The same for every copy that validation accepts, empty ones and ones that wrap around included |
| TextureCopySplitter.SmallCopyIsSplit | src/dawn_native/d3d12/TextureCopySplitter.cpp:41-207 | Of accepted copies of at least one texel whose rows and slices fit 32 bits, exactly those go wrong that straddle rows with an unaligned offset past the whole slice |
| TextureCopySplitter.SlicePitchWraps | src/dawn_native/d3d12/TextureCopySplitter.cpp:89-90 | An accepted copy of four rows whose slice pitch wraps around to zero |
| TextureCopySplitter.EmptyCopyDivides | src/dawn_native/d3d12/TextureCopySplitter.cpp:89-90 | An accepted copy of no columns with the default row pitch of zero |
| TextureCopySplitter.OneRowGoesWrong | src/dawn_native/d3d12/TextureCopySplitter.cpp:199-204 | A concrete one-row copy for which the second region misses its place |
| TextureCopySplitter.TexelOffsets | src/dawn_native/d3d12/TextureCopySplitter.cpp:23-38 | An unaligned start is at most one row below the base, and a slice below only if the slice, as 32 bits hold it, has the size of that row |
| TextureCopySplitter.AlignDownIsMask | src/dawn_native/d3d12/TextureCopySplitter.cpp:60 | The mask is rounding down to the placement alignment |
| LayoutHeap.PointersAreIdentities | src/dawn_native/Device.cpp:75-93 | In every run of creations, references and releases: the cache is exactly the set of live layouts, two live layouts are one object if and only if made from the same bindings in any order, internal counts are the `Ref`s plus one for external references, and no `Ref` dangles |
| LayoutHeap.LivesWhileReferenced | src/dawn_native/RefCounted.cpp:34-75 | In every run a layout lives exactly while it was returned and referenced from outside more often than released, or some `Ref` points to it |
| LayoutHeap.RefsPoint | src/dawn_native/RefCounted.h:45-123 | Copies and assignments leave their source, moves empty it, and nothing else changes |
| LayoutHeap.CreateIsFine | src/dawn_native/Device.cpp:75-89 | Creation returns an object with the bindings asked for, the existing one if there is one, and fails only for a bad descriptor or when the backend fails for new bindings |
| LayoutHeap.StepKeepsInv | src/dawn_native/RefCounted.h:45-123 | Every construction, copy, move, assignment and destruction of a `Ref`, and every external reference, keeps counts and cache right |
| LayoutHeap.DestroyKeepsInv | src/dawn_native/BindGroupLayout.cpp:95-100 | Destroying a layout nobody refers to takes it, and only it, out of the cache, although erasure goes by equality |
| LayoutCache.ValidatesExactly | src/dawn_native/BindGroupLayout.cpp:26-47 | The loop accepts exactly descriptors with valid fields and distinct indices below 16 |
| LayoutCache.FillDescribes | src/dawn_native/BindGroupLayout.cpp:79-93 | The constructor's arrays hold exactly the bindings, whatever they held before |
| LayoutCache.SameInfoExactly | src/dawn_native/BindGroupLayout.cpp:60-74 | Two infos are equal if and only if their descriptors are permutations of each other |
| LayoutCache.EqualHash | src/dawn_native/BindGroupLayout.cpp:50-58 | Equal infos hash equally, whatever lies outside their masks |
| LayoutObjects.HashBindingInfo | src/dawn_native/BindGroupLayout.cpp:50-58 | The loop over the mask computes the hash |
| LayoutObjects.EqualInfos | src/dawn_native/BindGroupLayout.cpp:60-74 | The loop over the mask decides equality |
| LayoutObjects.BindGroupLayoutBase.constructor | src/dawn_native/BindGroupLayout.cpp:79-93 | From uninitialized arrays, the bindings of an accepted descriptor |
| LayoutObjects.RefCounted.Release | src/dawn_native/RefCounted.cpp:66-75 | The last external release gives up one internal reference, and deletes exactly when none is left |
| LayoutObjects.RefCounted.Reference | src/dawn_native/RefCounted.cpp:54-64 | The first external reference takes an internal one |
| LayoutObjects.RefCounted.ReleaseInternal | src/dawn_native/RefCounted.cpp:34-44 | Counts down and deletes at zero |

## Left out

Of the wire:

- WireSystem.RunKeepsInv: runs leave out late write successes for destroyed ids (see above) and the wrap of the 32-bit object and request serials and of the id counter; callbacks do not call back into the protocol.
- WireHistories.CompletionAnswersExactly: says what is sent for the buffer an id names; completions of a buffer whose id was destroyed only keep the invariant (`WireSystem.StepKeepsInv`).
- WireSystem.UpdateFindsItsMapping: mapped bytes are not modelled, only which mapping they come from and how many they are.
- WireEndpoints.WireServer.HandleCreateBuffer: whether the native side yields a buffer, and what holds a buffer alive besides its handle, are inputs.
- Objects other than buffers, builder callbacks, the text of device errors and the byte loop of the command handlers.
- WireSerialize.RoundTripIsExact: transfer structures have no padding, numbers are little-endian, sizes do not wrap around, and the allocator for deserialized data does not fail.
- The transport, including the test transport of src/utils/TerribleCommandBuffer.cpp: the channels are ideal queues.

Of the command stream:

- CommandRuns.RunIsFound: addresses and sizes do not wrap around, and malloc is an oracle that returns an address or nothing.
- CommandMemory.CommandIterator.NextCommandId: blocks are values with an address and bytes, so writing to a payload while iterating is not modelled; they are handed over, not freed.
- CommandValidation.AcceptedExactly: attachment compatibility of a pipeline is equality of an attachment state; null bind groups and vertex slots past the maximum, which the source follows, are an undefined result; the checks done while recording (group index, push constant range) are part of the command type.
- CommandReplay.ReplayOfAccepted: what a command needs of the pipeline, the bind groups and the copy split, and which barriers and commands are passed on; descriptor heaps, root signatures and the D3D12 calls themselves are not part of this model. Pipelines and buffers in commands are not null.
- CommandReaders.ReadCommands: sizes, alignments and the place of the count are parameters; of a payload only the count is interpreted, and the other bytes come back as they were written.
- CommandReferences.RecordAndFree: `Ref` fields are values beside the bytes of a structure.
- Other backends' command buffers.

Of lifetimes, copies and layouts:

- AllocatorPool.RunsAreFine: CPU calls do not interleave with each other and the GPU works through its queue in order; device removal is left out. Other users of the device's serials (resource, descriptor and upload trackers) are left out.
- SerialQueues.SerialQueue.EnqueueAll: an empty batch is a precondition violation, as the source asserts.
- TextureCopySplitter.SplitIsExact: intended addresses and the slices of a footprint are counted without wrapping around, as the GPU does; boxes have one slice, as validated copies do.
- LayoutHeap.PointersAreIdentities: objects, `Ref`s and the cache are one value, with `Ref` and the cache functions as functions on it, since destruction reaches from a counter into the device's cache; the counters do not overflow.
- LayoutCache.ValidatesExactly: index 16, which passes the check and then reads past the bitset, is a separate outcome that callers treat as rejection.
- LayoutCache.EqualHash: the hash of single values is a parameter.
- Simple builders (blend, depth-stencil, input state, sampler), the generator, shader reflection and swap chains other than their effect on serials.
