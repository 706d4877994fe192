# libmango: synchronisation, address translation and kernel arguments

libmango lets a host program start kernels on heterogeneous tiles. A kernel spawns N tasks that
meet at barriers, the host streams data to them in chunks, and all of it runs over 32-bit
synchronisation registers whose only operations are an atomic read-and-clear and a write. Before a
kernel starts, the host lays out its virtual addresses, fills the TLB of its tile and prints its
arguments on a command line that the device parses back. This project models these three parts and
proves what they are for.

## The three parts

**Register protocol.** `Protocol.dfy` is a step relation: N tasks (N arbitrary) inside
`mango_barrier` and `mango_exit`, the thread inside `mango_join`, a host thread inside
`FIFOBuffer::synch_write`, the registers event_a, event_b, event_r and the FIFO's event, and the
buffer's memory. One register access, or one byte of a host transfer, is one step, and all
interleavings are allowed. Two things are parameters of every theorem: whether `mango_wait` writes
the value it waited for back (`dev/src/mango_hn.c`) or keeps it (`dev/src/gn/mango_hn.c` and its
peak and nuplus copies), and whether a register write overwrites (the GN emulation) or increments
(the API documentation). `Invariant.dfy` states one inductive invariant for all four combinations,
`Preservation.dfy` proves that every step keeps it, and the results are read off it:

- `Barriers.dfy`: barrier safety, the serial section, the token discipline, exact join, and that
  the two kinds of write cannot be told apart;
- `Streaming.dfy` and `HostData.dfy`: the slot holds exactly the right chunk whenever tasks may look at
  it, and from round to round it shows the data that `synch_write` was given;
- `Progress.dfy`, `FifoRounds.dfy` and `Closers.dfy`: for tasks of R barriers whose program fixes, by
  task and round, whether they pass the FIFO: no reachable state is stuck, with a decreasing measure
  and a schedule, and exactly how many chunks it takes;
- `Spinning.dfy`: progress of every run, whatever the schedule: only so many steps are not turns of a
  loop that waits, and such a step is never more than three steps away;
- `Contrast.dfy` and `Exhaustion.dfy`: what the consuming wait loses, and exactly when tasks still
  finish under it, by some schedule and whatever happens;
- `HostLoops.dfy`, `Divisors.dfy` and `LoopPair.dfy`: the host's streaming loops with their 32-bit
  offset, when they ever leave, and a producer and a consumer loop running against each other.

**Memory manager.** `MemoryManager.dfy` holds the classes of the source with their fields and loops
(`MM`, `TLB`, `TaskGraph`, the kernels, and the hardware as one table of entries per tile). Every
method is tied to a function on values from `Translation.dfy`. `Layout.dfy` and `Entries.dfy` say
where buffers end up and what stands in each TLB entry, whether or not addresses wrap; `Limits.dfy` for
which sizes the buffers of a kernel keep apart from each other and from the events; `Agreement.dfy`
exactly when hardware and software translate alike, for buffers, events and kernel images; `Reuse.dfy`
what that means for tiles that have been used before; `Lookups.dfy` that every lookup succeeds; and
`Addresses.dfy`, in numbers, where images, events and buffers are.
`RegisterInit.dfy` is the preparation of the event registers, up to the first state of the protocol.

**Kernel arguments.** `Arguments.dfy` prints and splits the command line, `Hex.dfy` has the number
printer and the two parsers (`strtol` in base 16, following section 7.22.1.4 of ISO/IEC 9899:2011, and the NU+
library's own). `Delivery.dfy` joins the parts: word base+j of a kernel's command line is an address
that its tile's TLB translates to the memory of the j-th argument, and a device reads it exactly when
its reader can; the four words before the base are, likewise, the kernel's own events, those of the
protocol. It goes on to the parameters of the kernel, which the generated entry point assigns from those
words.

## Where code and documentation disagree

- `host/include/mango.h:204-207` documents a register whose write increments;
  `dev/src/gn/mango_hn_gn.c:64-68` overwrites. `Barriers.StoreKindsIndistinguishable` shows that
  the protocol cannot tell.
- The synchronisation code of `dev/src/mango_hn.c` and of its copies below `gn`, `peak` and `nuplus`
  differs in `mango_wait` only, and `dev/src/CMakeLists.txt:1-3` builds only those copies, so the wait
  that is built is the consuming one. The barrier is correct with the write-back wait. With the
  consuming one, N tasks of R barriers can be sure to finish exactly when N <= 1 or N*R <= 2, and no
  task ever passes the FIFO (`Exhaustion.ConsumingAlwaysIff`); some schedule finishes exactly when
  N <= 1 or N*R <= 2, and at most one round must stream, for which there is a chunk
  (`Exhaustion.ConsumingCompletesIff`).
- `host/src/mm.cpp:57` restarts the entries of every tile but nothing clears its TLB, so a second
  resource allocation with fewer buffers leaves entries of the first behind, and they can overlap
  those of the second (`Reuse.SmallerGraphCollides`).
- The memory manager does not check that the buffers of a kernel fit its window, nor that the image ends by
  2^32. Hardware and software agree exactly when they do and no entry from before translates an
  address in use (`Agreement.ReachedIff`); one byte more than the window of a PEAK tile is enough
  (`Reuse.LargeBufferFails`). A DCT window ends at 2^32; if one of its buffers ends exactly there, the
  rest goes from 0 up to the events at 0x10000000 and is translated right too (`Limits.LaidIffFits`).
- The entry point that `dev/bin/mango_gen_kernel_entry.py:52-58` generates reads every word with
  `strtol`, on every architecture. The NU+ library has a parser of its own, documented for the
  kernel arguments, but nothing in the repository calls it. A NU+ address is at least 0x80000000, so
  the generated entry point reads it exactly when the device's `long` can hold it, which one of 32
  bits cannot; the NU+ parser always reads it (`Delivery.ReadsIff`, `Delivery.HalfReadable`). That
  parser is right on "0x"-prefixed words exactly from eight digits on (`Hex.AtoxExactIff`).
- `dev/src/nuplus/mango_hn_nuplus.c:7-10` takes the words themselves, not the numbers they stand for, as the
  addresses of a NU+ device's events; `Delivery.DeviceEventsAre` is about the GN and the PEAK device.
- A negative `int` argument arrives where the device's `long` has 64 bits and saturates where it
  has 32 (`Arguments.IntRoundTrip`).
- `synch_write` and `synch_read` do not stop at the size asked for when its covering multiple does not
  fit 32 bits; they leave at all exactly when the size is at most 2^32 less the greatest common
  divisor of the buffer's size and 2^32 (`HostLoops.LeavesIff`).

## Model

| member | source | states |
|---|---|---|
| Invariant.InitInv | dev/src/gn/mango_hn_gn.c:78-96 | the state a spawn leaves (N+1, N+1, 2 and a FIFO event at WRITE) satisfies the invariant |
| Preservation.StepKeepsInv | dev/src/mango_hn.c:27-110 | every register access of every thread keeps the invariant, for any N, both waits and both kinds of write |
| Preservation.RunInv | dev/src/mango_hn.c:27-110 | every state of every run satisfies the invariant |
| Preservation.OnlyHolder | dev/src/gn/mango_hn_gn.c:64-76 | a task about to write a register is its only holder and finds it at 0 |
| Preservation.SerialAlone | dev/src/mango_hn.c:85-109 | with a task in the else branch all N have arrived, and the others wait in the same round |
| Preservation.SignalValue | dev/src/mango_hn.c:70-75 | a signalling task took N+1 minus the arrivals so far, and at least 2 |
| Preservation.ExitValue | dev/src/mango_hn.c:27-34 | an exiting task took N+1 minus the exits so far, at least 2, and the joiner has not returned |
| Barriers.BarrierSafety | dev/src/mango_hn.c:77-110 | no task leaves round k before all have entered it; completed rounds differ by at most one; a slow waiter still finds the release value it waits for |
| Barriers.ReleaseSeenExactly | dev/src/mango_hn.c:81-87 | the release register logically holds a waiter's value if and only if its round has been released |
| Barriers.SerialSection | dev/src/mango_hn.c:84-109 | while a task is in the else branch, all others are past their signal in the same round and not released |
| Barriers.OneSerialTask | dev/src/mango_hn.c:84-109 | in a round that all have signalled and nobody released, exactly one task is in the else branch |
| Barriers.LogicalValues | dev/src/mango_hn.c:70-110 | the barrier register's logical value is N+1 minus the arrivals, or N+1 once reset; the exit register's is N+1 minus the exits; every decrement starts from at least 2 |
| Barriers.RegisterValues | host/include/mango_types.h:31 | in numbers: the release register reads 0, or 2 or 1 by the parity of the rounds released; the FIFO's reads 0, 2 when a chunk is wanted, 1 when it is there or 3 when it has been taken |
| Barriers.JoinExact | dev/src/mango_hn.c:27-68 | the exit register logically holds 1 if and only if every task has exited, and a joiner that returned, or is about to, finds them all gone, under both waits |
| Barriers.TokenDiscipline | dev/src/mango_hn.c:41-75 | a register never has two holders, reads 0 while held, is never set to 0 by a write, its holder carries the value last stored; with the write-back wait a register at 0 has a holder |
| Barriers.WritesFindZero | dev/src/gn/mango_hn_gn.c:64-76 | whoever is about to write a register finds it at 0, task, joiner or host |
| Barriers.StoreKindsIndistinguishable | host/include/mango.h:204-207 | a sequence of states and steps is a run on overwriting registers if and only if it is a run on incrementing ones |
| Streaming.StreamExact | dev/src/mango_hn.c:90-109 | with m+1 FIFO rounds released and no later handshake under way, m+1 chunks have been delivered and the slot is chunk m; once the next chunk is accepted the slot is that one |
| Streaming.ChunkStableWhileComputing | host/src/buffer.cpp:125-154 | as long as one task has not signalled, the slot is the last released chunk and no step changes it |
| Streaming.ReleaseDelivers | dev/src/mango_hn.c:90-109 | at the release of FIFO round m exactly m+1 chunks are delivered and accepted, and the slot is chunk m |
| Streaming.TransfersOnlyInHandshake | host/src/buffer.cpp:128-142 | after the first chunk the host moves bytes only while one task waits for them and all others wait for that task |
| FifoRounds.RunPlanned | dev/src/mango_hn.c:90-109 | in every state of every run the rounds that have streamed are at least those in which every task passes the FIFO and at most those in which some task does |
| Progress.UsefulStep | dev/src/mango_hn.c:27-110 | while every register still needed has its token and no task starves, some step that follows the program lowers the measure unless all is done, and one that makes a chosen task arrive last |
| Progress.Completes | dev/src/mango_hn.c:27-110 | with the write-back wait and a chunk for every round that may stream, from any state with the invariant a schedule no longer than the measure, with the FIFO passed as the program says, ends with all tasks exited and the joiner returned |
| Progress.RunCompletes | dev/src/mango_hn.c:27-110 | the same from every state of every run; at the end all R rounds are released, the rounds streamed are those the program asks for, as many chunks are delivered, and the slot is the last of them |
| Progress.AlwaysStreamingEnds | dev/src/mango_hn.c:77-110 | tasks that all pass the FIFO to each of R barriers end with exactly R chunks delivered and the last one in the slot |
| Spinning.StepCounts | dev/src/mango_hn.c:27-110 | under either wait no step of any thread raises the potential, turns of waiting loops leave it as it is and every other step lowers it |
| Spinning.AdvancesBounded | dev/src/mango_hn.c:27-110 | in every run of N tasks of R barriers, whatever the schedule, at most N(16R+15)+2 steps are not turns of a waiting loop, plus size+4 for each chunk |
| Spinning.RunAdvances | dev/src/mango_hn.c:41-61 | with the write-back wait, in every state of every run that is not finished a step that is no turn of a waiting loop is possible after at most three others |
| Closers.CompletesIffChunks | dev/src/mango_hn.c:77-110 | under the write-back wait, for any program and N, the tasks can finish at all if and only if there is a chunk for every round that must stream, and can still finish whatever happens if and only if there is one for every round that may |
| Closers.StarvedNeverCompletes | dev/src/mango_hn.c:94-98 | once a task waits for a chunk and the host has none left no schedule finishes |
| Contrast.LostForever | dev/src/gn/mango_hn.c:41-61 | a register that has lost its token reads 0 in every later state |
| Contrast.ReleaseConsumed | dev/src/gn/mango_hn.c:52-61 | once a consuming waiter takes the release value the register reads 0 for the rest of the run |
| Contrast.FifoConsumed | dev/src/gn/mango_hn.c:92-97 | after a consuming wait for READ the task spins in the following lock for the rest of the run |
| Contrast.AtMostTwoReturns | dev/src/gn/mango_hn.c:75-108 | with the consuming wait and N >= 2, at most two barrier calls ever return |
| Contrast.ConsumingNeverCompletes | dev/src/gn/mango_hn.c:75-108 | so with N >= 2 and N*R > 2 no run, streaming or not, ever has all tasks exited |
| Exhaustion.StepKeepsToken | dev/src/gn/mango_hn.c:52-61 | only a wait that finds its value can take a register's token away |
| Exhaustion.DoomedNeverCompletes | dev/src/gn/mango_hn.c:92-97 | under the consuming wait, once a task has asked for a chunk no schedule finishes |
| Exhaustion.FewWaitsComplete | dev/src/gn/mango_hn.c:27-108 | one task, or no barrier, or two tasks that meet once, none passing a FIFO: from every such state all can exit and be joined |
| Exhaustion.ConsumingAlwaysIff | dev/src/gn/mango_hn.c:27-108 | under the consuming wait, from the first state on, N tasks of R barriers can finish whatever happens if and only if N <= 1 or N*R <= 2, and no round may stream |
| Exhaustion.AlwaysPassingIff | dev/src/gn/mango_hn.c:75-108 | tasks that always pass the FIFO can be sure to finish if and only if there are no tasks or no barriers |
| Exhaustion.ConsumingCompletesIff | dev/src/gn/mango_hn.c:27-108 | some schedule finishes if and only if N <= 1 or N*R <= 2, and at most one round must stream, for which the host has a chunk |
| HostLoops.SynchWrite | host/src/buffer.cpp:125-154 | as many transfers as it takes the 32-bit offset to reach the size asked for, wrapping or not; burst k is the `size` bytes at the k-th offset; the offset after the last is returned |
| HostLoops.SynchRead | host/src/buffer.cpp:156-183 | the sink ends as it was with each burst received stored at the offset of its turn, in order |
| HostLoops.WriteIsData | host/src/buffer.cpp:125-154 | when the covering multiple fits 32 bits exactly the covering number of bursts is sent, and together they are the data up to that multiple |
| HostLoops.ReadIsChunks | host/src/buffer.cpp:156-183 | and the sink then holds the bursts one after the other, and past them what it held |
| HostData.SlotsAreData | host/src/buffer.cpp:125-154 | in every run, what the slot holds at the FIFO releases so far is, put together, the data `synch_write` was given from its start, as long as the offset has not wrapped |
| HostData.AllDataStreamed | host/src/buffer.cpp:125-154 | and in a finished run of as many streaming rounds as there are transfers it is all the data asked for |
| HostLoops.Transfers | host/src/buffer.cpp:128-128 | the covering multiple is the least that is at least the size asked for |
| HostLoops.ExitsWhenCoveredIff | host/src/buffer.cpp:128-151 | the 32-bit loop leaves after exactly those transfers if and only if the covering multiple is below 2^32 |
| HostLoops.StaysInsideIff | host/src/buffer.cpp:128-151 | the transfers end exactly at the size asked for if and only if `size` divides it |
| HostLoops.LeavesIff | host/src/buffer.cpp:128-151 | the loop leaves at all if and only if the size asked for is at most 2^32 less the greatest common divisor of the buffer's size and 2^32 |
| LoopPair.MoveKeepsInv | host/src/event.cpp:29-76 | every access and every byte of either loop keeps the invariant of the pair |
| LoopPair.PairRunInv | host/src/buffer.cpp:125-183 | so it holds in every state of every interleaving |
| LoopPair.LoopsAlternate | host/src/buffer.cpp:125-183 | transfers alternate strictly, the consumed bytes are a prefix of the produced ones, and a consumer that is done has them all |
| LoopPair.PairUseful | host/src/buffer.cpp:125-183 | unless both loops are done one of them can move on |
| LoopPair.PairCompletes | host/src/buffer.cpp:125-183 | from every such state both loops can finish with the whole data transferred |
| RegisterInit.ClearEvent | host/src/context.cpp:392-410 | every listed object with the id gets the address and its register ends at 0, the assertion holding; no other register changes |
| RegisterInit.PrepareBuffer | host/src/context.cpp:412-438 | exactly the events of buffers with the id go to WRITE; registers of no event of the graph keep their value |
| RegisterInit.FromBbque | host/src/context.cpp:392-438 | whatever the registers held and however often events repeat, buffer events end at WRITE and all other graph events at 0, and the registers of no event of the graph keep their value |
| RegisterInit.PrepareAndSpawn | dev/src/gn/mango_hn_gn.c:78-81 | from any registers, the host's preparation and then the spawn leave N+1, N+1, 2 and the FIFO's event at WRITE, the protocol's first registers, the graph's other events prepared and all other registers as they were |
| MemoryManager.TaskGraph.constructor | host/src/task_graph.cpp:7-32 | the event list is the caller's events, then each kernel's termination and task events, then each buffer's event |
| MemoryManager.TaskGraph.GetKernelById | host/include/task_graph.h:104-109 | the first kernel with the id |
| MemoryManager.MemoryManager.MapKernelImage | host/src/mm.cpp:59-112 | image entry, pool base by architecture, kernel address and entry counter, and nothing else; `Addresses.ImageEntry` has the numbers |
| MemoryManager.MemoryManager.SetVaddrKernels | host/src/mm.cpp:55-114 | the kernels pass on the whole state |
| MemoryManager.MemoryManager.SetBuffTlb | host/src/mm.cpp:116-151 | software address, hardware entry, entry counter and the aligned next address, and nothing else |
| MemoryManager.MemoryManager.MapFor | host/src/mm.cpp:183-200 | one buffer is mapped for each listed kernel in order, the host's 0 skipped |
| MemoryManager.MemoryManager.SetVaddrBuffers | host/src/mm.cpp:176-205 | the buffers pass: all requests, readers before writers, buffer by buffer |
| MemoryManager.MemoryManager.SetEventTlb | host/src/mm.cpp:153-174 | the kernel's address for the event is the base of its architecture plus the event's offset |
| MemoryManager.MemoryManager.MapEventFor | host/src/mm.cpp:211-223 | one event is mapped for each listed kernel, the host's 0 skipped |
| MemoryManager.MemoryManager.OpenKernelEvents | host/src/mm.cpp:226-290 | the events entry of a kernel's tile, by architecture, and its task events |
| MemoryManager.MemoryManager.SetVaddrEvents | host/src/mm.cpp:207-293 | the events pass on the whole state |
| MemoryManager.MemoryManager.MapGraph | host/src/context.cpp:462-465 | the three passes in order; where buffers are attached only to kernels that get a pool, the second never meets a missing pool or counter, also if kernels share a unit |
| Layout.AfterKernels | host/src/mm.cpp:55-114 | with one kernel per unit, every kernel's image entry, pool and counter survive the rest of the pass |
| Layout.Cursor | host/src/mm.cpp:116-151 | after any requests, whatever they need, a kernel's next address is its base plus the rounded sizes so far, modulo 2^32, and its tile's next entry is START plus the count so far |
| Limits.LaidIffFits | host/src/mm.cpp:116-151 | the intervals of a kernel's requests do not wrap, keep clear of the events and are pairwise disjoint if and only if its rounded sizes fit its window, or on a DCT tile go on from 0 after a buffer that ends at 2^32 and stay below the events |
| Layout.SoftwareAddress | host/include/tlb.h:33-43 | whatever the buffers need, the software table holds the address of one of the requests for the buffer |
| Entries.EntryStays | host/src/mm.cpp:130-138 | whether or not it wraps, a request's entry is never overwritten by another |
| Entries.BuffersTouch | host/src/mm.cpp:176-205 | an entry that no request for the tile's kernel is given stays as it was |
| Agreement.StaleEntry | host/src/mm.cpp:55-293 | after the three passes an entry given neither to a request nor to the events is as before, but for the image's |
| Agreement.RequestEntry | host/src/mm.cpp:116-293 | whatever the buffers need, after the three passes the entry of a request holds what the request wrote, from its address on and for its size |
| Agreement.ReachedIff | host/src/mm.cpp:55-293 | every offset of every request, event area and kernel image is reached through its own entry alone if and only if the buffers of every kernel fit its window, the images end by 2^32, and no entry from before translates an address in use, nor the image's one of a buffer or event |
| Agreement.BufferTranslates | host/src/mm.cpp:55-205 | for every attached buffer one entry of the kernel's tile, and no other, takes the kernel's address plus any offset to that offset of the buffer's memory, also when the buffer is mapped twice |
| Agreement.EventTranslates | host/src/mm.cpp:226-259 | every offset of the event area is translated by the events entry alone, to itself |
| Agreement.ImageTranslates | host/src/mm.cpp:59-112 | the kernel's own address plus any offset of its image reaches that offset of the image through the image's entry alone |
| Reuse.PassesTouch | host/src/mm.cpp:55-293 | the passes write only the image's entry, the events' entry and those of requests for the tile's kernel |
| Reuse.FillKept | host/src/mm.cpp:57-138 | a graph with at most n requests for a tile leaves no entry from START+n on in use if none was |
| Reuse.EnoughRequests | host/src/mm.cpp:57-138 | a graph with at least as many requests for each tile as it has entries in use from START on is undisturbed |
| Reuse.SecondReaches | host/src/mm.cpp:57-138 | so a second graph with at least as many requests per tile as the first needs to know nothing about the entries the first left |
| Reuse.SmallerGraphCollides | host/src/mm.cpp:57-138 | a PEAK kernel with its four events reads two buffers of 0x1000 bytes and then, in a second graph, one of 0x2000: the second graph fits but is not translated right |
| Reuse.LargeBufferFails | host/src/mm.cpp:7-12 | on a clean tile a buffer of one byte more than the PEAK window is not translated right |
| Lookups.AttachedEventKnown | host/src/mm.cpp:210-224 | a kernel attached to an event of the graph gets its address, in any order and with duplicates |
| Lookups.LookupsSucceed | host/src/kernel_arguments.cpp:62-88 | after the passes a kernel finds its termination event, its task events and every attached buffer, whether or not the buffers fit and whatever the tiles held |
| Lookups.EventAddressTranslates | host/src/mm.cpp:153-174 | the address a kernel has for an event reaches that event's register |
| Addresses.ImageEntry | host/src/mm.cpp:59-112 | after the passes entry 1 of a kernel's tile maps its image from 0x30000000, or 0 on NU+, for 0x10000000 bytes on PEAK whatever its size and for the image's size otherwise, and the kernel has that address |
| Addresses.ImageExtent | host/src/mm.cpp:75-98 | from the kernel's address exactly the offsets below 0x10000000 on PEAK, and below the image's size on NU+ and DCT, are mapped by entry 1, each to that offset of the kernel's memory and through no other entry |
| Addresses.EventEntry | host/src/mm.cpp:226-259 | entry 2 maps the 16 MB from 0x5e000000, 0xff000000 or 0x10000000 by architecture to the event registers |
| Addresses.EventAddress | host/src/mm.cpp:153-174 | a kernel's address for an event is that start plus the event's place, in 32 bits |
| Addresses.BufferAddress | host/src/mm.cpp:116-205 | the address and the TLB entry of every buffer in every kernel, as a sum over the buffers before it: each takes its size rounded up to 64 as often as the kernel is listed |
| Addresses.PoolsAndCounters | host/src/mm.cpp:57-110 | the kernels pass opens a pool only for kernels of PEAK, NU+ and DCT and a counter for exactly the tiles of the graph |
| Addresses.OnlyAttachedBuffers | host/src/mm.cpp:176-205 | a kernel is told no address of a buffer it is not attached to |
| Addresses.OnlyOwnEvents | host/src/mm.cpp:207-290 | nor of an event it is neither attached to nor has as a task event |
| Addresses.OtherTilesKept | host/src/mm.cpp:226-275 | opening the events leaves the tiles of other architectures alone |
| Arguments.KernelArguments.Setup | host/src/kernel_arguments.cpp:62-88 | appends the termination event, then the task events in order, then the caller's arguments in order, each with its value looked up |
| Arguments.KernelArguments.GetArguments | host/src/kernel_arguments.cpp:90-146 | the text is that of the stream after the header and all arguments; its first word is the placeholder, or under emulation, with no space in it, the path, and the second is then read as the memory's size |
| Arguments.ArgumentString | host/src/kernel_arguments.cpp:62-146 | the words printed are those of the set-up arguments, and the first ones are the placeholder, or the path and the memory's size |
| Arguments.ArgumentWords | host/src/kernel_arguments.cpp:123-142 | one word for each of the four events before the base and one for each argument kept from the base on |
| Arguments.HeaderSplits | host/src/kernel_arguments.cpp:113-119 | the header is one word, or two under emulation, exactly when the program's path has no space |
| Arguments.EmitTokens | host/src/kernel_arguments.cpp:123-142 | each argument becomes one word; unprefixed scalars are base 16 because the stream already is |
| Arguments.EmitKept | host/src/kernel_arguments.cpp:139-141 | arguments of an unrecognised class leave no trace in the text |
| Arguments.ArgumentsRoundTrip | dev/src/gn/mango_hn_gn.c:45-48 | word base+j read in base 16 is the j-th user argument, saturated to the device's long, and the four words before are the exit, task, barrier and release events |
| Arguments.BindParameters | dev/bin/mango_gen_kernel_entry.py:46-65 | every parameter of a known type is bound once, in order, and on any command line is given the value of word base plus its position: the mapped address if it is a pointer or an event, the number if it is an integer |
| Arguments.IntRoundTrip | dev/bin/mango_gen_kernel_entry.py:57-58 | an `int` survives a 64-bit long always, and a saturating 32-bit long if and only if it is not negative |
| Hex.PrintValue | host/src/kernel_arguments.cpp:123-138 | the digits printed stand for the number |
| Hex.PrintLength | host/src/kernel_arguments.cpp:123-138 | more than n digits exactly from 16^n on |
| Hex.StrtolReadsPrinted | dev/bin/mango_gen_kernel_entry.py:52-58 | strtol in base 16 reads a printed number back, prefixed or not, up to saturation |
| Hex.StrtolExactIff | dev/bin/mango_gen_kernel_entry.py:52-58 | and exactly if and only if the device's long can hold it |
| Hex.Atox | dev/src/nuplus/mango_hn_nuplus.c:51-64 | the loops compute the recursive parse with 32-bit wrap-around and sign |
| Hex.StrayVanishes | dev/src/nuplus/mango_hn_nuplus.c:59-62 | 33*16^n is a multiple of 2^32 if and only if n >= 8 |
| Hex.AtoxExactIff | dev/src/nuplus/mango_hn_nuplus.c:51-64 | right modulo 2^32 on any digits, and on "0x"-prefixed ones if and only if there are at least eight |
| Hex.AtoxSigned | dev/src/nuplus/mango_hn_nuplus.c:51-64 | white space in front is skipped, a minus negates modulo 2^32 and a plus does nothing |
| Hex.AtoxReadsPrinted | dev/src/nuplus/mango_hn_nuplus.c:51-64 | inverts the printer on every word, and on prefixed words exactly from 0x10000000 on |
| Delivery.GraphClosed | host/src/task_graph.cpp:7-32 | the event list built by the constructor is closed over kernels and buffers |
| Delivery.EventOrder | host/src/task_graph.cpp:7-32 | in that list the caller's events come first, then each kernel's, its termination event before its task events, then the buffers' |
| Delivery.SetupReady | host/src/kernel_arguments.cpp:62-88 | every lookup the setup of a kernel's arguments makes succeeds after the passes, whether or not the buffers fit and whatever the tiles held |
| Delivery.ReadsIff | dev/bin/mango_gen_kernel_entry.py:52-58 | the generated entry point reads an address if and only if the device's long can hold it; the NU+ parser if and only if it has eight digits |
| Delivery.BufferArrives | host/src/kernel_arguments.cpp:125-127 | the word printed for an attached buffer is read as its address if and only if the reader can read that address, and from the address the whole of the buffer's memory is reached through one entry |
| Delivery.EventArrives | host/src/kernel_arguments.cpp:125-127 | likewise for an event, whose own register is reached from the address |
| Delivery.CommandLineWords | host/src/kernel_arguments.cpp:62-146 | word base+j is the j-th of the caller's arguments that are kept, with the value in the kernel's table; words base-4 to base-1 are the table's addresses of the termination event and of the first, second and third task event |
| Delivery.ArgumentsArrive | dev/bin/mango_gen_kernel_entry.py:46-58 | end to end for a kernel of a mapped graph and any reader: word base+j of its argument string delivers the j-th argument, a buffer or event at an address from which its own memory or register is reached, or a scalar, each read right exactly when the reader can; words base-4 to base-1 are addresses from which the registers of the termination event and of the first, second and third task event are reached |
| Delivery.DeviceEventsAre | dev/src/gn/mango_hn_gn.c:45-48 | the device takes its exit, task, barrier and release events from the kernel's addresses of the termination event and of the first, second and third task event |
| Delivery.PeakEventsReached | dev/src/peak/mango_hn_peak.c:13-20 | on a mapped PEAK tile the registers of those four events are reached from the addresses the device takes |
| Delivery.ParametersArrive | dev/bin/mango_gen_kernel_entry.py:52-58 | the parameter at the place of a kept argument is assigned once: a pointer is given the mapped address from which the whole of the buffer's memory is reached, an event the mapped address of its own register, an integer the number, as far as the device's long can hold the word |
| Delivery.IntArrives | dev/bin/mango_gen_kernel_entry.py:57-58 | so an `int` argument arrives as itself if it is not negative or the long has more than 32 bits |

## Left out

- The HN hardware library, BarbequeRTRM, pthreads, semaphores and logging: foreign code; registers, memory and TLBs are values whose operations succeed.
- The spin loops of `mango_lock`, `mango_wait` and `Event::wait_state` are steps of a state machine and not methods, because other threads move between any two of their accesses.
- One FIFO buffer per kernel: the model does not capture tasks that stream through several FIFO events.
- `Event::wait` on a FIFO event takes END_FIFO_OPERATION, which the device may store after every round; the streaming theorems are for runs without such a wait before the last round.
- Fairness of the scheduler: progress is stated as a schedule from every reachable state and as a bound on the steps of every run that do not spin; which schedulers let a task win a lock against spinning waits is not modelled.
- Stores that `mango_gn_spawn` makes without the semaphore: they happen before any task exists and are the initial state.
- The copies of the protocol below `dev/src/peak` and `dev/src/nuplus`: the same text as the GN one; their platform spawns are stubs.
- HostLoops.SynchWrite: requires that the loop leaves, exactly when `HostLoops.LeavesIff` says it does, and that the source is readable wherever it is read.
- HostLoops.SynchRead: the same, and a sink that is writable wherever it is written.
- Agreement.BufferTranslates: where buffers do not fit or entries from before interfere it is not promised; `Agreement.ReachedIff` says that something then is not reached.
- Agreement.ReachedIff: two kernels on one unit, which the source's comments exclude, are excluded; the passes themselves and the lookups are not limited to that.
- Clusters: `from_bbque` gives one cluster to everything, so tables are keyed by tile alone.
- Builds with 64-bit `mango_addr_t` (GN emulation on x86-64): the pool is a 32-bit word here; the two agree whenever the window bound holds.
- The remaining attributes of a TLB entry are reduced to whether it maps memory or the event registers.
- `MM_GN`, which maps every address to itself, and the identity parts of the GN device.
- RegisterInit.FromBbque: kernels, memory tiles and clusters assigned by the resource manager, and the callbacks and profiling beside them.
- How `hn_run_kernel` splits the command line is not part of the repository; words separated by single spaces are assumed.
- Float scalars and the truncation of 64-bit scalars, which lose information by design.
- The prototype text parser of `mango_gen_kernel_entry.py` beyond the assignment of argv positions.
- The OpenCL wrapper, the C API, the `Context` maps, kernel file loading, profiling and enum conversions: finite tables and forwarding.
