# Verified models of vLLM-InfiniKV's bookkeeping

This project models the parts of the repository that are algorithms or state machines
in their own right, and proves what they are for. Methods that change state are
classes and methods here, each proved against a function of its inputs or of the old
state; what the program relies on is then proved about those functions.

| area | modules | main results |
|---|---|---|
| graph partition signatures | `GraphPartition`, `GraphPartitionProof` | running the partitions one by one, on declared inputs and outputs only, gives the graph outputs of the whole graph, for every kernel, input and division; it runs through exactly when every partition asks for allocated buffers only and for all that its nodes need; a buffer marked as deallocated is returned by nobody and wanted by nobody later, and every other allocated input is returned |
| memory planning of wrapper code | `MemoryPlan` | planning succeeds exactly when no line needs an empty stack and one state is left at the end; two lines share a state exactly when they lie in the same subgraph body |
| weighted build times | `BuildTime` | the sweep gets through exactly when no step ends before it starts, and then the shares add up to the time at least one step was running |
| chunked device allocator, ROCm build | `DeviceMemory`, `CumemChunks`, `CumemState`, `CumemAllocator` | over every run with failing driver calls, mapped memory is exactly the ranges of the awake allocations, operations are complete exactly when no driver call fails and no error is pending, and giving everything back restores the device exactly when no operation lost anything; exact conditions for roll-back and for 64-bit rounding |
| flat logprobs | `FlatLogprobs` | the flat container reads like a list of dictionaries; what a slice selects, position by position; slices read back exactly when they go forward, select one position or select positions without entries |
| bad words | `BadWords` | no bad word ever appears in what is generated; only completions of bad words are blocked |
| scalar types | `Bits`, `ScalarTypes` | the constructed binary64 pattern is the greatest finite value except for one family of formats; ids are injective exactly up to the field widths |
| statistics monitor | `StatsMonitor`, `StatsProof` | counters conserve events under every interleaving; each request is tracked until exactly one drain reports it, with the time from its request to its last finish; an exact account of hit against requested tokens |
| streaming outputs | `RequestOutputs` | folding a stream of outputs concatenates by index; merging associates |
| chunked data-parallel sizes | `ChunkSizes` | every rank runs its own tokens once, and a dummy token in each idle chunk |
| index ranges | `IndexRanges`, `Texts`, `Sets` | printing reads back; no shorter list of ranges covers the same indices |
| cache keys | `CacheKeys`, `Texts` | a key comes back from its string exactly when no text field holds the separator; exactly when a plain key parses as a layer key |

## What the proofs found

The models follow the code. Where a natural expectation is false, the exact condition
is proved and an example given.

- Graph partitions. Freed names of earlier partitions become inputs without the check
  for unallocated buffers (env_override.py, lines 261-266), so a partition that frees
  one asks for an input that nobody holds: `FreeingUnallocatedBreaksTheCall`. And where
  a mutation name has no layout although the buffer behind it has one, a partition that
  reads the buffer under that name only does not get it; whether this happens depends
  on the cut: `DisagreeingLayoutsBreakOneCut`. `Supplied` is the exact condition, a
  check on the graph and a partition; where layouts agree it comes down to the freed
  buffers: `AgreeingLayoutsSupply`.
- Memory planning accepts some lists that are not well bracketed, such as a closing
  line followed by an opening one: `PlanAcceptsCloseThenOpen`.
- The allocator. Rounding the chunk size up wraps around when base chunk and
  granularity do not fit in 64 bits together, and the division by it then traps. A
  failed access call is not rolled back and loses range and handles. A failed
  allocation leaves the error code set, so later allocations give up at once, and
  leaves its table entry behind. A create-and-map call that meets a pending error
  leaks the first handle. Freeing with a size other than the aligned one keeps the
  range reserved and sets the error code.
- Flat logprobs read `None` back as the empty dictionary, and a slice that goes
  backward over several positions loses their entries. The slice `[-k:]` selects the
  last k positions, but all of them for k == 0: `LastPositions`.
- Scalar types. With one exponent bit under IEEE 754 rules all finite values are
  subnormal, and the pattern built for the maximum lies above them all.
- Statistics. A request that finishes twice before a drain counts its hits twice; in
  the totals an open request can hide this, so the exact condition counts what is
  outstanding: `HitsWithinRequestedExactly`, `CompleteFinishesExactly`.
- Cache keys. A plain key parses as the key of a layer exactly when its text fields hold
  one separator in all and the parts that come to stand for numbers are numbers:
  `PlainParsesAsLayerExactly`. The string of a layer key never parses as a plain key.

## How the models relate to the program

- Graph nodes are their sets of produced, accessed and last-used names. A kernel is an
  arbitrary function from the values a node uses to the values it writes. Buffers live
  under their real names, and partition arguments are copies, so that a partition can
  give anything back only by returning it.
- The device driver is a model of its own (`DeviceMemory`): reserving, creating,
  mapping and setting access may fail at any call with any error code; unmapping,
  releasing and freeing succeed exactly on what is there. A record that only proofs see
  holds every status that was not zero and every range that access was set to. The
  allocator's error code is sticky, as in the C++ module, and is cleared by the two
  functions called from Python.
- Times, logits and logarithms are exact reals, a logit may be minus infinity, and the
  values of small float formats are whole multiples of 2^-1074, the least positive
  binary64 number (section 3.4 of IEEE 754-2008). Clocks, tokenizers and sampled tokens
  are parameters.
- Exceptions and failed assertions are `None`, `Err` or a returned flag.

## Model

| member | source | states |
|---|---|---|
| GraphPartition.PartitionSignature | vllm-infinikv/vllm/env_override.py:224-320 | one pass over a partition gives its declared inputs, outputs and deallocations and the names wanted before it; it raises exactly when a returned buffer has no node |
| GraphPartition.GetGraphPartitionSignature | vllm-infinikv/vllm/env_override.py:184-322 | the backward pass yields the signatures that the set equations define, pairing partitions and flags from the end, each signature with its own flag; it raises exactly when some partition would return a name that is no graph input and no node's output |
| GraphPartitionProof.PartitioningKeepsMeaning | vllm-infinikv/vllm/env_override.py:196-322 | for every kernel, input and division of a well-formed graph: the partitions run through exactly when each is supplied, and then every graph output has the value the whole graph gives it and nothing freed is still held |
| GraphPartitionProof.WholeGraphNeverMisses | vllm-infinikv/vllm/env_override.py:196-322 | run as one, a well-formed graph finds every buffer its nodes use |
| GraphPartitionProof.WrittenReachesItsReaders | vllm-infinikv/vllm/env_override.py:229-299 | where the partitions from j on are supplied: a buffer that j writes and a later partition receives is returned by j and freed by none in between; a written graph output is returned |
| GraphPartitionProof.DeallocatedIsDone | vllm-infinikv/vllm/env_override.py:268-299 | a name that a signature marks as deallocated is received there, not returned, no graph output, and, if allocated, received by no later partition |
| GraphPartitionProof.ReceivedIsReturnedOrDeallocated | vllm-infinikv/vllm/env_override.py:268-299 | the marks are on exactly the received names, and an allocated one is returned exactly when it is not marked |
| GraphPartitionProof.NothingSuperfluousReceived | vllm-infinikv/vllm/env_override.py:241-274 | received is exactly what has a node and is accessed under a name with a layout from outside, or freed and not produced; the constants are exactly those accessed from outside |
| GraphPartitionProof.NothingSuperfluousReturned | vllm-infinikv/vllm/env_override.py:241-299 | a returned name is received and kept, or the storage of a name produced there that is a graph output or wanted by a later partition |
| GraphPartitionProof.NoneLayoutMeans | vllm-infinikv/vllm/env_override.py:196-222 | a name counts as unallocated exactly when it is a buffer without layout and, for a mutation output, so is the buffer it mutates |
| GraphPartitionProof.LookupsNeverFail | vllm-infinikv/vllm/env_override.py:295-299 | in a well-formed graph every returned buffer has a node, for every division |
| GraphPartitionProof.FreeingUnallocatedBreaksTheCall | vllm-infinikv/vllm/env_override.py:254-266 | a well-formed graph whose second partition asks for an unallocated buffer and so cannot be called |
| GraphPartitionProof.DisagreeingLayoutsBreakOneCut | vllm-infinikv/vllm/env_override.py:201-252 | a graph where the layouts of a mutation name and its buffer disagree: cut in two the run stops, for every kernel, and uncut it runs through |
| GraphPartitionProof.AgreeingLayoutsSupply | vllm-infinikv/vllm/env_override.py:201-266 | where layouts agree, a partition is supplied exactly when what it frees of earlier partitions is allocated |
| MemoryPlan.Trimmed | vllm-infinikv/vllm/env_override.py:152-158 | trimming drops memory lines of buffers that are no outputs from the end, only those and all of them; the line of an output buffer stays |
| MemoryPlan.WrapperCodegen.PlanLines | vllm-infinikv/vllm/env_override.py:160-172 | the pass gets through exactly when the stack suffices and ends empty; each memory line gets a state, shared exactly within a subgraph body |
| MemoryPlan.WrapperCodegen.MemoryPlanReuse | vllm-infinikv/vllm/env_override.py:152-172 | the same of the trimmed lines |
| MemoryPlan.TrimmedStaysWellBracketed | vllm-infinikv/vllm/env_override.py:152-172 | well-bracketed lines stay so when trimmed, and planning them succeeds |
| MemoryPlan.PlanAcceptsCloseThenOpen | vllm-infinikv/vllm/env_override.py:163-172 | planning also succeeds on a list that is not well bracketed |
| BuildTime.Sort | vllm-infinikv/tools/report_build_time_ninja.py:223-224 | sorting keeps the events |
| BuildTime.SortIsSorted | vllm-infinikv/tools/report_build_time_ninja.py:223-228 | events come in order of time, a start before a stop of the same time |
| BuildTime.Sweep | vllm-infinikv/tools/report_build_time_ninja.py:230-256 | the event loop, with its lazily shared accumulator, fails exactly where the stop of a step comes before its start; otherwise it gives every step its share of each stretch it ran in and totals the shares, and the closing assertion that none is left running holds |
| BuildTime.SharesSumToBusy | vllm-infinikv/tools/report_build_time_ninja.py:237-256 | for every set of steps the shares add up to the time at least one was running |
| BuildTime.SharesAreBounded | vllm-infinikv/tools/report_build_time_ninja.py:74-89 | over the sorted events every share lies between zero and the duration of its step, and the shares add up to the busy time |
| BuildTime.BusyAndIdle | vllm-infinikv/tools/report_build_time_ninja.py:258-265 | busy and idle time make up the whole extent |
| BuildTime.Extent | vllm-infinikv/tools/report_build_time_ninja.py:209-217 | the first loop finds the least start and the greatest end, for non-negative times in order, and the sum of durations |
| BuildTime.SummarizeEntries | vllm-infinikv/tools/report_build_time_ninja.py:198-256 | it raises exactly when there is no step or one ends before it starts; otherwise every step gets its share, between zero and its duration, and the weighted total is the busy time and falls short of the build length by the idle time |
| CumemChunks.MemcreateChunkSize | vllm-infinikv/csrc/cumem_allocator.cpp:24-42 | whole megabytes, never zero and within 64 bits: the configured number when it fits, else the default |
| CumemChunks.RoundUpExact | vllm-infinikv/csrc/cumem_allocator.cpp:343-344 | the 64-bit rounding gives the least multiple exactly when the sum fits, and zero otherwise |
| CumemChunks.PlanChunks | vllm-infinikv/csrc/cumem_allocator.cpp:317-367 | the aligned size is the least multiple; the division traps exactly when rounding the chunk size overflows; the chunks cut the aligned size exactly when their count does not overflow |
| CumemState.ChunksTile | vllm-infinikv/csrc/cumem_allocator.cpp:158-177 | an address is mapped by a chunk exactly when it lies in the range of the allocation, and no two chunks overlap |
| CumemState.RangeIsClear | vllm-infinikv/csrc/cumem_allocator.cpp:410-412 | a held range can be given back exactly when its allocation is not mapped |
| CumemState.MappedIsAwakeRanges | vllm-infinikv/csrc/cumem_allocator.cpp:147-237 | mapped memory is exactly the union of the ranges of the awake allocations |
| CumemState.NothingHeld | vllm-infinikv/csrc/cumem_allocator.cpp:428-536 | with nothing held, the device is as at the start up to leaked handles |
| CumemAllocator.CumemAllocator.CreateHandles | vllm-infinikv/csrc/cumem_allocator.cpp:148-157 | one new handle a chunk exactly when no call fails and no error is pending; after a failure none, except that a pending error leaks the first |
| CumemAllocator.CumemAllocator.MapChunks | vllm-infinikv/csrc/cumem_allocator.cpp:158-177 | every chunk mapped in its place exactly when no call fails, or after a failure no mapping and no handle |
| CumemAllocator.CumemAllocator.CreateAndMap | vllm-infinikv/csrc/cumem_allocator.cpp:95-191 | complete, with access set to the whole range, exactly when no driver call fails and no error was pending; all or nothing for creation and mapping failures at any call; a failed access call leaves everything mapped; the error code ends as the one status that was not zero |
| CumemAllocator.CumemAllocator.UnmapAndRelease | vllm-infinikv/csrc/cumem_allocator.cpp:193-237 | takes exactly the mappings and handles of an allocation; where none is there, nothing changes but the error code; never anything new appears; the error code becomes the first status that was not zero |
| CumemAllocator.CumemAllocator.Malloc | vllm-infinikv/csrc/cumem_allocator.cpp:297-425 | exactly when no driver call fails and no error is pending: a mapped, aligned range cut into chunks, disjoint from all others, with access set to all of it; after a failed creation or mapping the device is as before; every failure leaves the error code at the last status that was not zero, and one after the reservation leaves the table entry; size 0 and a pending error fail before it |
| CumemAllocator.CumemAllocator.MapReserved | vllm-infinikv/csrc/cumem_allocator.cpp:388-424 | from the reserved range on: mapped exactly when no driver call fails, or given back, or after a failed access call kept by nobody; the table entry stays in every case |
| CumemAllocator.CumemAllocator.GiveUp | vllm-infinikv/csrc/cumem_allocator.cpp:410-421 | the range is given back exactly when nothing is mapped in it; otherwise the error code is that of the failed call |
| CumemAllocator.CumemAllocator.Free | vllm-infinikv/csrc/cumem_allocator.cpp:428-536 | memory and entry go; the range goes exactly when the size given is the aligned one; the error code stays exactly then and if the allocation was awake |
| CumemAllocator.CumemAllocator.Sleep | vllm-infinikv/csrc/cumem_allocator.cpp:564-660 | the memory goes, range and chunk layout stay; a second sleep raises and changes nothing |
| CumemAllocator.CumemAllocator.Wake | vllm-infinikv/csrc/cumem_allocator.cpp:662-727 | mapped again in the same range with the same layout, and access set to all of it, exactly when no driver call fails and no error is pending; otherwise unchanged but for a failed access call or a leaked handle; the error code ends cleared |
| CumemAllocator.CumemAllocator.Step | vllm-infinikv/csrc/cumem_allocator.cpp:297-727 | what each operation does to books, error code, device and record, by how it ended, and when it is complete; a sleeper whose wake was rolled back still sleeps |
| CumemAllocator.CumemAllocator.Run | vllm-infinikv/csrc/cumem_allocator.cpp:297-727 | any sequence of allocations, sleeps, wakes and frees runs from the state before to the state after, one operation at a time as specified |
| CumemAllocator.RunMapsAwakeRanges | vllm-infinikv/csrc/cumem_allocator.cpp:147-237 | at every point of a run mapped memory is exactly the ranges of the awake allocations |
| CumemAllocator.FaultlessRunCompletes | vllm-infinikv/csrc/cumem_allocator.cpp:147-425 | from a clear error code no driver call of a run fails exactly when every operation not skipped is complete, none loses anything, and no error is ever pending |
| CumemAllocator.StepLoss | vllm-infinikv/csrc/cumem_allocator.cpp:297-727 | everything held stays owned, and no handle gets lost, exactly through operations that lose nothing |
| CumemAllocator.DeviceRestoredExactly | vllm-infinikv/csrc/cumem_allocator.cpp:297-727 | once everything owned is given back the device is as at the start exactly when no access call of an allocation failed, no wake met a pending error with a new handle, and every free gave the aligned size |
| FlatLogprobs.FlatContainer.Append | vllm-infinikv/vllm/logprobs.py:63-72 | one more dictionary at the end, the empty one for None |
| FlatLogprobs.FlatContainer.AppendFast | vllm-infinikv/vllm/logprobs.py:74-93 | one more dictionary, that of the zipped arguments, as long as the shortest |
| FlatLogprobs.LastItemCounts | vllm-infinikv/vllm/logprobs.py:63-93 | of several items of a position with the same token id the last counts |
| FlatLogprobs.FlatContainer.Extend | vllm-infinikv/vllm/logprobs.py:95-98 | extending is concatenation of what the containers stand for |
| FlatLogprobs.FlatContainer.ExtendFlat | vllm-infinikv/vllm/logprobs.py:95-98 | the same for another flat container, read position by position |
| FlatLogprobs.FlatContainer.GetItem | vllm-infinikv/vllm/logprobs.py:112-120 | the items at an index, with an IndexError where any list is too short |
| FlatLogprobs.ItemAtIsView | vllm-infinikv/vllm/logprobs.py:112-120 | reading a well-formed container gives the dictionary at that position, from either end, and an IndexError exactly outside |
| FlatLogprobs.FlatContainer.GetSlice | vllm-infinikv/vllm/logprobs.py:121-133 | raises exactly when the step is zero or nothing is selected; a forward slice is well formed and shows the selected positions |
| FlatLogprobs.ForwardSlice | vllm-infinikv/vllm/logprobs.py:121-133 | shifting and cutting along a forward selection keeps the offsets right |
| FlatLogprobs.SelectedForward | vllm-infinikv/vllm/logprobs.py:121-133 | with bounds from the front and a positive step: exactly the positions from the start, before the stop and the end, a whole number of steps after the start |
| FlatLogprobs.SelectedBackward | vllm-infinikv/vllm/logprobs.py:121-133 | with a negative step: exactly those down from the start or the last position, behind the stop, a whole number of steps before the start |
| FlatLogprobs.NegativeBounds | vllm-infinikv/vllm/logprobs.py:121-133 | a negative bound counts from the end; beyond the front it is 0 going forward, and going backward selects nothing as the start and is no bound as the stop |
| FlatLogprobs.SelectedInside | vllm-infinikv/vllm/logprobs.py:121-133 | the selected positions exist and come in the order of the step |
| FlatLogprobs.LastPositions | vllm-infinikv/vllm/v1/engine/output_processor.py:396-396 | the slice [-k:] selects the last k positions in order, all of them where there are fewer or k is 0 |
| FlatLogprobs.SliceReadsBackExactly | vllm-infinikv/vllm/logprobs.py:121-133 | a slice reads back the selected positions exactly when it goes forward, selects one position, or selects positions without entries |
| FlatLogprobs.Ranks | vllm-infinikv/vllm/logprobs.py:184-190 | the sampled rank, then 1, 2, ... up to the number asked for, where -1 asks for all |
| FlatLogprobs.FlatAfter | vllm-infinikv/vllm/logprobs.py:162-206 | after any run of appends both containers hold the same dictionaries, up to None read as empty |
| BadWords.NoBadWordsLogitsProcessor.CheckTokenIdsBounds | vllm-infinikv/vllm/logits_process.py:106-112 | the invalid ids, in order of occurrence |
| BadWords.NothingInvalid | vllm-infinikv/vllm/logits_process.py:106-121 | the check passes exactly when every id lies in the vocabulary |
| BadWords.AllInvalidIdsAre | vllm-infinikv/vllm/logits_process.py:106-112 | the error list holds exactly the ids of the words that lie outside the vocabulary |
| BadWords.InOrderOfOccurrence | vllm-infinikv/vllm/logits_process.py:106-112 | the error list names them in order of occurrence |
| BadWords.NoBadWordsLogitsProcessor.InitWordBias | vllm-infinikv/vllm/logits_process.py:89-104 | the word bias masks exactly the one-token words, or stays unset when an id is invalid |
| BadWords.NoBadWordsLogitsProcessor.LastTokenBias | vllm-infinikv/vllm/logits_process.py:64-83 | the step bias masks exactly the tokens that complete a longer word; it raises exactly on an empty word |
| BadWords.NoBadWordsLogitsProcessor.Process | vllm-infinikv/vllm/logits_process.py:56-87 | tokens that would complete a bad word get minus infinity and all others keep their logit; the two errors occur exactly as stated |
| BadWords.BlocksOnlyCompletions | vllm-infinikv/vllm/logits_process.py:64-87 | a logit becomes minus infinity where choosing the token would make a bad word end there, and keeps its value everywhere else |
| BadWords.NoBadWordEverAppears | vllm-infinikv/vllm/logits_process.py:56-104 | in any generation by tokens with finite processed logits no non-empty bad word occurs anywhere |
| BadWords.Generate | vllm-infinikv/vllm/logits_process.py:56-104 | a whole run with one processor generates what is picked, stops only where the processor raises or the pick is masked, and never contains a bad word |
| BadWords.BadWordsIds | vllm-infinikv/vllm/logits_process.py:21-43 | exactly the encodings at the start of a text and, where they differ and have the same length, after a space |
| BadWords.LStripStops | vllm-infinikv/vllm/logits_process.py:26-32 | leading blanks, tabs and line ends go, up to the first printable character |
| ScalarTypes.MaxFieldsAreLast | vllm-infinikv/vllm/scalar_type.py:76-85 | the fields chosen for the maximum are finite, and no finite fields stand for more |
| ScalarTypes.WideningKeepsValue | vllm-infinikv/vllm/scalar_type.py:87-101 | moving a normal number's fields to binary64 keeps its value |
| ScalarTypes.MaxIsGreatest | vllm-infinikv/vllm/scalar_type.py:71-105 | the assertions let through exactly the formats that fit into binary64; the pattern is then a finite binary64 number, and it is the greatest finite value of the format exactly unless the format has one exponent bit under IEEE 754 rules |
| ScalarTypes.MinIsNegatedMax | vllm-infinikv/vllm/scalar_type.py:116-125 | the minimum's pattern has 64 bits and decodes to the negated maximum |
| ScalarTypes.NamedMaxima | vllm-infinikv/vllm/scalar_type.py:332-336 | the greatest values of float8_e4m3fn, float8_e5m2 and float16 are 448, 57344 and 65504 |
| ScalarTypes.NamedIds | vllm-infinikv/vllm/scalar_type.py:146-164 | the ids of float8_e4m3fn, float16 and uint4b8 |
| ScalarTypes.UnpackRecovers | vllm-infinikv/vllm/scalar_type.py:146-164 | every field can be read back from the id up to its width, and the id takes 58 bits |
| ScalarTypes.SameIdExactly | vllm-infinikv/vllm/scalar_type.py:146-164 | two types share an id exactly when all fields agree up to their widths |
| ScalarTypes.FittingIdsAreInjective | vllm-infinikv/vllm/scalar_type.py:136-164 | the id is injective on types whose fields fit |
| ScalarTypes.Registry.OrAndAdvance | vllm-infinikv/vllm/scalar_type.py:146-151 | or-ing in a masked, shifted member adds it above the bits in use |
| ScalarTypes.Registry.Id | vllm-infinikv/vllm/scalar_type.py:136-164 | the id as the sum of its reduced fields, and the registry entry |
| ScalarTypes.Registry.Int | vllm-infinikv/vllm/scalar_type.py:266-271 | the signed integer type of the size, sign bit included, with the bias given or 0, registered |
| ScalarTypes.Registry.Uint | vllm-infinikv/vllm/scalar_type.py:273-278 | the unsigned integer type of the size, with the bias given or 0, registered |
| ScalarTypes.Registry.FloatIeee754 | vllm-infinikv/vllm/scalar_type.py:280-289 | the signed float type with the exponent and mantissa given and no bias, registered; an assertion fails exactly on empty fields |
| ScalarTypes.Registry.Float | vllm-infinikv/vllm/scalar_type.py:291-306 | the same with the finite flag and NaN convention given, which IEEE 754 is not |
| ScalarTypes.Registry.FromId | vllm-infinikv/vllm/scalar_type.py:308-312 | after any run of constructor calls it returns a type that a call made with the id, and a ValueError exactly where no call made one |
| ScalarTypes.EntriesAreMade | vllm-infinikv/vllm/scalar_type.py:162-164 | every registry entry sits under its own id and was made by a call, and every id made is there |
| ScalarTypes.FromIdReturnsExactly | vllm-infinikv/vllm/scalar_type.py:266-312 | after any run of constructor calls from_id returns every type made exactly when no two different ones share an id |
| ScalarTypes.FromIdReturnsFittingTypes | vllm-infinikv/vllm/scalar_type.py:266-312 | with fitting fields that is always so |
| ScalarTypes.WideBiasTakesAnotherTypesId | vllm-infinikv/vllm/scalar_type.py:273-278 | a bias of 2^32 takes the place of the type without bias |
| StatsMonitor.InfiniKVStatsMonitor.OnRetrieveRequest | infinikv/infinikv/observability.py:136-153 | the next id, an open request that starts at the time of the call, and the counters of one retrieve call |
| StatsMonitor.InfiniKVStatsMonitor.OnRetrieveFinished | infinikv/infinikv/observability.py:156-162 | the request ends at the time of the call and its hits count; an assertion fails exactly when it is not tracked |
| StatsMonitor.InfiniKVStatsMonitor.OnStoreRequest | infinikv/infinikv/observability.py:165-176 | the same for a store request |
| StatsMonitor.InfiniKVStatsMonitor.OnStoreFinished | infinikv/infinikv/observability.py:179-185 | the request ends at the time of the call, with a new token count unless that is negative |
| StatsMonitor.InfiniKVStatsMonitor.UpdateIntervalRemoteReadMetrics | infinikv/infinikv/observability.py:200-202 | one more read of so many bytes |
| StatsMonitor.InfiniKVStatsMonitor.UpdateIntervalRemoteWriteMetrics | infinikv/infinikv/observability.py:205-207 | one more write of so many bytes |
| StatsMonitor.InfiniKVStatsMonitor.Clear | infinikv/infinikv/observability.py:221-250 | counters start again; exactly the unfinished requests stay |
| StatsMonitor.InfiniKVStatsMonitor.GetStatsAndClear | infinikv/infinikv/observability.py:253-307 | the snapshot of the interval, and the cleared monitor |
| StatsMonitor.PrometheusLogger.LogCounter | infinikv/infinikv/observability.py:595-600 | one counter grows by the data, by nothing if negative, and no other changes |
| StatsMonitor.PrometheusLogger.LogPrometheus | infinikv/infinikv/observability.py:607-634 | each of the eight counters takes its own field of the snapshot |
| StatsMonitor.LogRound | infinikv/infinikv/observability.py:705-709 | one round moves the interval into the totals |
| StatsProof.NothingIsLost | infinikv/infinikv/observability.py:135-307 | under every interleaving: logged snapshots, drained snapshots and the current interval add up to all events, for each counter |
| StatsProof.CountersHoldEverythingExactly | infinikv/infinikv/observability.py:595-634 | Prometheus counter, drained snapshots and current interval hold all events exactly when no logged snapshot was negative |
| StatsProof.CountersHoldEverything | infinikv/infinikv/observability.py:595-634 | with non-negative token and byte counts that is always so |
| StatsProof.StepTracks | infinikv/infinikv/observability.py:135-250 | ids are given out in order, one a request; an id is tracked from its request until a drain finds it finished |
| StatsProof.TrackedUntilReported | infinikv/infinikv/observability.py:221-250 | over any run an id given out is still tracked or was reported by a drain, and not both |
| StatsProof.ReportedOnce | infinikv/infinikv/observability.py:221-250 | no request is reported by two drains |
| StatsProof.TimedIdsAreFinished | infinikv/infinikv/observability.py:266-275 | the ids with a non-zero duration are those of finished requests that took any time, in order |
| StatsProof.DurationsOfFinished | infinikv/infinikv/observability.py:266-275 | a snapshot's times are the durations of exactly those requests, one for each |
| StatsProof.TrackedTimes | infinikv/infinikv/observability.py:136-185 | over any run, a tracked request starts at the time of the call that gave out its id and ends at the time of its last accepted finish, or at zero without one |
| StatsProof.ListedTimes | infinikv/infinikv/observability.py:253-275 | each time a drain lists is the time of some request's last accepted finish less the time of the call that gave out its id |
| StatsProof.ListedExactly | infinikv/infinikv/observability.py:253-275 | a drain lists an id exactly when it is tracked and its last accepted finish came at another time than zero and than its request |
| StatsProof.FinishIsReported | infinikv/infinikv/observability.py:156-250 | an accepted finish at another time than zero, and no later finish, make the next drain report the id |
| StatsProof.HitsAccount | infinikv/infinikv/observability.py:149-162 | over every run: hit tokens are requested tokens, less what is outstanding or left unused, plus what finishes of requests that were not open added |
| StatsProof.HitsWithinRequestedExactly | infinikv/infinikv/observability.py:149-162 | hit tokens stay within requested tokens exactly when what extra finishes added is covered by what is outstanding or unused |
| StatsProof.HitsNeverExceedRequested | infinikv/infinikv/observability.py:149-162 | if no accepted finish hits a finished request or takes more tokens than asked for, hit tokens never exceed requested tokens |
| StatsProof.CompleteFinishesExactly | infinikv/infinikv/observability.py:149-162 | with complete finishes the hits stay within what the requests no longer waiting asked for exactly when no tracked request was finished again |
| StatsProof.OpenRequestHidesSecondFinish | infinikv/infinikv/observability.py:156-162 | a second finish can stay hidden in the totals behind an open request |
| StatsProof.FinishingTwiceExceedsRequested | infinikv/infinikv/observability.py:156-162 | a request finished twice in full makes the hits twice the requested tokens |
| RequestOutputs.CompletionOutput.Absorb | vllm-infinikv/vllm/outputs.py:154-167 | the earlier completion takes in the later one; an assertion fails exactly when logprobs arrive for a completion without |
| RequestOutputs.RequestOutput.AddCompletion | vllm-infinikv/vllm/outputs.py:152-173 | merged into the first completion of the same index, or appended |
| RequestOutputs.RequestOutput.AddCompletions | vllm-infinikv/vllm/outputs.py:151-173 | the values of all completions, merged in order |
| RequestOutputs.RequestOutput.Add | vllm-infinikv/vllm/outputs.py:145-173 | the merge of values, the finished flag and the latest transfer parameters |
| RequestOutputs.StreamFolds | vllm-infinikv/vllm/outputs.py:145-173 | folding any stream goes through exactly when no index that started without logprobs gets some; the outputs are one for each index in first-seen order, the concatenation in arrival order or, without aggregation, the latest |
| RequestOutputs.InArrivalOrder | vllm-infinikv/vllm/outputs.py:145-173 | groups, and the texts, token ids and logprobs put together, keep the order of arrival |
| RequestOutputs.FirstSeenInOrder | vllm-infinikv/vllm/outputs.py:152-173 | the outputs come in the order of the first completions of their indices |
| RequestOutputs.AddingOutputsFolds | vllm-infinikv/vllm/outputs.py:145-173 | the same for a list of outputs added one after the other |
| RequestOutputs.MergingAssociates | vllm-infinikv/vllm/outputs.py:145-173 | merging is associative wherever the later outputs, the first of them with distinct indices, merge among themselves |
| ChunkSizes.DpMetadata.EnterChunk | vllm-infinikv/vllm/forward_context.py:72-87 | the local size of every sequence-parallel rank for a chunk |
| ChunkSizes.SpEntry | vllm-infinikv/vllm/forward_context.py:61-69 | entry j of data-parallel rank p is the count of that rank divided over its sequence-parallel ranks, rounding up |
| ChunkSizes.SizeInRange | vllm-infinikv/vllm/forward_context.py:82-87 | every chunk size lies between 1 and the chunk limit |
| ChunkSizes.FirstChunks | vllm-infinikv/vllm/forward_context.py:82-87 | the first c chunks hold min(s, M*c) tokens and a dummy token for each idle one |
| ChunkSizes.TokenInOneChunk | vllm-infinikv/vllm/forward_context.py:82-87 | every token lies in exactly one chunk |
| ChunkSizes.AllChunks | vllm-infinikv/vllm/forward_context.py:126-133 | over as many chunks as the fullest rank needs, every rank runs its tokens once and one dummy token in each chunk it does not need |
| ChunkSizes.CuTokensAcrossSp | vllm-infinikv/vllm/forward_context.py:179-184 | the prefix sums of the counts used for the chunks |
| ChunkSizes.PaddingBounded | vllm-infinikv/vllm/forward_context.py:61-69 | rounding up loses no token and pads fewer than one for each rank |
| IndexRanges.FormatIndexRanges | vllm-infinikv/vllm/model_inspection.py:44-58 | the text of the ranges of the sorted list, and an IndexError on the empty one |
| IndexRanges.RangesExpandBack | vllm-infinikv/vllm/model_inspection.py:48-57 | the ranges that the scan finds expand to the list |
| IndexRanges.PrintedRangesReadBack | vllm-infinikv/vllm/model_inspection.py:44-58 | reading the printed text gives the sorted list, repetitions included, for non-negative indices |
| IndexRanges.DashOnlyInPairs | vllm-infinikv/vllm/model_inspection.py:53-57 | a range is printed with a dash exactly when it has more than one index |
| IndexRanges.GapsBetweenRanges | vllm-infinikv/vllm/model_inspection.py:50-55 | with distinct indices a gap separates neighbouring ranges |
| IndexRanges.FewestRanges | vllm-infinikv/vllm/model_inspection.py:44-58 | no list of ranges that covers the same distinct indices is shorter |
| Texts.SplitJoinExactly | infinikv/infinikv/utils.py:107-107 | cutting undoes joining exactly when no part holds the separator |
| Texts.IntOfStr | infinikv/infinikv/utils.py:110-112 | an integer reads back from its decimal text |
| Texts.DigitsAppend | infinikv/infinikv/utils.py:71-75 | decimal text has its last digit last and no zero in front |
| CacheKeys.KeyRoundTripsExactly | infinikv/infinikv/utils.py:71-112 | a key comes back from its string exactly when no text field holds the separator |
| CacheKeys.PlainParts | infinikv/infinikv/utils.py:71-75 | the parts of a key's string are those of its fields, in their order |
| CacheKeys.LayerKeyRoundTripsExactly | infinikv/infinikv/utils.py:154-188 | the same for the key of a layer |
| CacheKeys.PlainParsesAsLayerExactly | infinikv/infinikv/utils.py:71-181 | the string of a plain key parses as a layer key exactly when its text fields hold one separator in all and the parts in number positions are numbers |
| CacheKeys.LayerStringsAreNoPlainKeys | infinikv/infinikv/utils.py:105-159 | the string of a layer key never parses as a plain key |
| CacheKeys.KindsDoNotMix | infinikv/infinikv/utils.py:105-181 | so without separators neither kind of string parses as the other |
| CacheKeys.SeparatorMakesALayerKey | infinikv/infinikv/utils.py:71-188 | with a separator and a number in the model name, and a number as hash, the layer key that a plain key parses as |
| CacheKeys.SplitLayers | infinikv/infinikv/utils.py:77-91 | one key for each layer, with all fields of the key, none for a negative count |
| CacheKeys.LayerStringsAreDistinct | infinikv/infinikv/utils.py:154-188 | the string of a layer is that of its key with the layer behind a separator; the strings of different layers differ, and each parses back to its layer |

## Left out

- GraphPartition.PartitionSignature: inputs, outputs and constants are sets, so their order is not modelled, and neither are the symbol inputs that another function computes.
- GraphPartitionProof.PartitioningKeepsMeaning: needs what the scheduler guarantees (each name produced once, accesses after production, sound last uses, mutation recorded by its final buffer), written out in `WellFormed`.
- MemoryPlan.WrapperCodegen.MemoryPlanReuse: what planning a line does with its state, and the computation of the output names, are not modelled.
- BuildTime.SummarizeEntries: the shares set before it raises are not described. Reading the log, grouping by extension and printing are left out.
- CumemAllocator.CumemAllocator.Malloc: requires a size whose rounding stays within 64 bits; `CumemChunks.PlanChunks` says exactly what the arithmetic does otherwise. Contexts, Python references and locks, host allocation failures and the missing callback are left out, and so is the CUDA build.
- CumemAllocator.CumemAllocator.Sleep: a second sleep is left out where the driver has given out one of the old handle values again, since it then releases a handle of another allocation.
- CumemAllocator.CumemAllocator.Free: a free while asleep, likewise.
- CumemAllocator.CumemAllocator.Wake: waking an allocation that is awake is left out; it overwrites the cells of live handles.
- CumemAllocator.CumemAllocator.Run: one client, on one device; an operation that its books do not allow is skipped; every call is atomic.
- FlatLogprobs.FlatContainer.ExtendFlat: extending a container with itself does not end in the source and is excluded; endless iterables of decoded tokens are left out.
- BadWords.NoBadWordsLogitsProcessor.Process: the vocabulary size does not change between calls; logits that are plus infinity or not a number are left out.
- ScalarTypes.MaxIsGreatest: formats with at least one exponent and one mantissa bit, as the float constructors require; infinities outside the IEEE convention, whose encoding nothing fixes, take no pattern of their own. The bias of the type is not subtracted.
- ScalarTypes: integer minimum and maximum, names, and the comparisons of the NaN convention with a number are left out.
- StatsMonitor.InfiniKVStatsMonitor.GetStatsAndClear: speeds, the hit rate, usage gauges and the lists of remote times are left out; the lists move as the counters do.
- StatsMonitor.PrometheusLogger.LogPrometheus: gauges and histograms are left out.
- StatsProof.HitsNeverExceedRequested: accepted finishes come at times other than zero, which is how the source tells finished requests; `HitsAccount` covers zero as well.
- RequestOutputs.RequestOutput.Add: completion objects are pairwise distinct within and between the two outputs, and token lists are values; sharing them is left out, and so are routed experts and adapters, which a merge does not touch.
- ChunkSizes.DpMetadata.EnterChunk: nested contexts, where leaving the inner one also drops the outer sizes, and the global forward context are left out.
- IndexRanges.PrintedRangesReadBack: negative indices are excluded, since the reader modelled here cuts a range at the minus sign; the module tree around the ranges is left out.
- Texts.IntOfStr: digits outside ASCII and the length limit of integer conversion are left out.
- GPU kernels and their wrappers, build and installation scripts, benchmarks, HTTP code and the demo: nothing in them is an algorithm that can be seen in full.
