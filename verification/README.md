# TPCE DMA driver: model and proofs

This project models the DMA core of the Linux driver for TPCE Gen2 data acquisition cards, and proves
what the driver promises of it. A request to copy device data into a scattered user buffer is compiled
into a list of mSGDMA descriptors; the list is relocated through an address translation table with 16
entries of 256 KiB that three channels share; it is linked into a chain or a ring and handed to a
prefetcher. Streaming transfers run until they are cancelled, and an interrupt handler unwraps a 16-bit
sequence number into a byte counter that user space maps.

The files follow the driver's parts, each one module:

- `Words`, `Bits`: fixed-width words, division facts, bitwise operators on naturals.
- `Gcd`, `Descriptors`, `Window`, `Capacity`, `Meaning`, `Generator`, `Buffers`, `Overrun`, `Irq`, `DescCheck`,
  `Boundaries`: the descriptor compiler. `Window` says what a tiling of the requested window is, `Meaning` what a list
  of descriptors copies, and `Generator` is the code.
- `PageTable`, `Translate`, `Publish`, `Space`, `Walk`, `EndToEnd`, `Transfers`, `LongLists`, `UserLists`: the
  translation table, relocation, publication, when the table has room, and the hardware's walk over the published
  list. `EndToEnd` compares what the walk executes and copies with what was asked for; `Transfers` composes
  compiler and start into a transfer in flight, and has transfers that copy something else; `LongLists` has
  rings that leave their page, `UserLists` the lists that users supply.
- `Stream`, `SyncData`, `Delivery`: the streaming producer, what its interrupts synchronise, and both compared
  with what the hardware copies.
- `Lifecycle`, `Reachable`, `Protocol`, `Mappings`, `Steps`, `Controllers`, `Flights`, `Carried`, `Witnesses`,
  `Driver`: the channels as a state machine. `Lifecycle` is the state machine as functions, `Reachable` its
  invariant, `Steps` what each step comes to, field by field, and `Protocol`, `Mappings` and `Controllers` what
  follows for every run. `Flights` says when a request starts, and
  `Carried` follows its transfer, registers and counters through a run. `Witnesses` has runs that show where
  conditions matter, `Driver` the code that updates the device, proved to take the steps of `Lifecycle`.
- `LegacyRead`: the wrapped block read of the older interface.

Code that works by changing state is a method with loops, arrays or fields, proved against a function;
the lemmas are about those functions. Results that hold only under a condition are stated as an
equivalence wherever the condition can be given exactly.

## What the results rest on

- A mapping is well formed: its entries add up to its size, and no entry runs past the 64-bit address
  space. A window must end below 2^32. The code checks neither; `Descriptors.AcceptedWindowInside` and
  `Generator.CompilableExact` say what remains of validation without them.
- The compiler is described for requests that pass validation and are `Compilable`. In fixed-size mode
  validation lets through offsets that no descriptors of that size can tile
  (`Generator.MisalignedOffsetAccepted`), and in flexible mode segments whose count wraps. `Overrun` says, over
  32-bit words, exactly when the filling loops then stay inside the planned descriptors.
- The end-to-end results ask that no data lies in the page at bus address 0, which the relocation takes for a
  page that it has already seen.
- The register of a stream holds the sequence number of the ring descriptor that the hardware is at.
- `pcie_page_alloc` compares the slot with 16, although a full table is reported as -1. The model returns
  -1 on a full table, which is what the guard is for. `PageTable.FindFirstZero` shows that the value compared is
  never 16 or more.
- The coherent descriptor buffer is aligned to a descriptor, and what lies in memory around a list is unknown. A
  comment in the driver (linux/dma.c:491-492) says that a list never crosses a page of the translation table,
  because its allocation is aligned. That is so up to 4096 descriptors, terminator included
  (`EndToEnd.ListInPageExact`). The results about the walk hold for every size of a list, and make its position
  part of their condition. The list stays as it is while the hardware walks it.
- The generator adds the page offset of a scatter entry to its DMA address, the validator of user
  descriptors does not. `DescCheck.AcceptanceExact` has the exact test, chunk by chunk, under which the validator
  accepts what the generator makes. On entries with gaps between them it comes down to a test on the offset of
  each entry of the window, and an entry that is used up to its end passes only with offset 0
  (`DescCheck.OffsetDisagreement`). Adjacent entries can make up for an offset (`DescCheck.NeighbourAccepts`).
- `PAGE_SIZE` is 4096 and addresses are 64 bits wide. The three control bits that the driver uses are
  booleans. Strides and burst counts are copied and checked but not given a meaning.
- The device mutex makes an ioctl one step, except that the wait of an execute can be interleaved with
  interrupts, the tasklet, the work queue, and the fork or end of user mappings. Everything under the mutex of a
  channel is one step.
- Memory, copies from user space, and the outcome of a legacy transfer are parameters.

## Where the code does less than one might expect

Each of these has a concrete input, transfer or run, named first; the exact condition is the lemma after it.

- A window whose end wraps at 32 bits is accepted: `Descriptors.WrappedWindowAccepted`;
  `Descriptors.AcceptedWindowInside`.
- The count of a flexible plan is too small, down to none at all, when a segment is longer than 2^32 - 2^18
  bytes, and the list can be filled past it: `Transfers.PlanTooSmall`, `Overrun.FlexibleOverruns`;
  `Generator.PlanCountExact`, `Overrun.FlexibleOverrunExact`.
- A fixed-size request whose offset does not fit its size is accepted, and then filled past its plan:
  `Overrun.MisalignedOverruns`; `Overrun.StaysInsideExact`, `Overrun.OverrunExact`.
- From 2^26 fixed-size descriptors on, the 32-bit size of the list wraps, and an accepted request is refused for
  want of descriptors: `Generator.WrappedListRefused`; `Generator.FixedSizeFitsExact`.
- A STREAM window that starts inside a memory page can need more descriptors than its buffer holds:
  `Buffers.StreamModeRefused`; `Buffers.StreamModeFitsExact`.
- A descriptor that crosses a page of the translation table goes on wherever the next slot points:
  `Transfers.CrossingMiscopies`; `EndToEnd.DefaultTransferExact`.
- A validated descriptor of the user that crosses such a page can write outside the mapping that it was validated
  against: `UserLists.UserEscapes`; `UserLists.UserInsideExact`.
- A list of more than 4096 descriptors does not fit into one page of the translation table. The prefetcher then
  goes on wherever the next slot points, such as into the data: `LongLists.ShortestLongRing`,
  `LongLists.LongRingStrays`; `EndToEnd.StreamTransferExact`, `EndToEnd.RingCopyExact`.
- The one-entry shortcut of the relocation is wrong for pages visited in turn: `Transfers.AlternationMiscopies`;
  `Translate.ShortcutExact`, `EndToEnd.DefaultTransferExact`.
- In flexible mode an accepted interrupt interval need not divide the ring: `Irq.FlexibleCadenceFails`;
  `Irq.GeneratedCadenceExact`.
- The 16-bit sequence number loses the position on rings of more than 65536 descriptors:
  `Stream.TruncatedNumberLost`; `Stream.TrackableExact`.
- A stream of flexible sizes never announces any data: `Delivery.FlexibleStreamSilent`; `Delivery.ProducedExact`.
- When the 64-bit counter wraps it loses the place in the ring, unless the size of the ring divides 2^64:
  `Stream.WrapLoses`; `Stream.CongruentAlwaysExact`.
- Cancelling a channel that has never been used resets the controller of channel 0:
  `Controllers.StreamSilenced`; `Controllers.EnginesExact`, `Controllers.StopsExact`.
- A failed start of a stream leaves its fast interrupt on, so that the next transfer of the channel cannot be
  completed, and until then the handler can divide by zero or synchronise without a mapping:
  `Witnesses.LeakedInterrupt`, `Witnesses.DivisorLost`, `Witnesses.LoopLost`; `Protocol.FastIrqExact`,
  `Protocol.CompletionExact`.
- A late interrupt of a transfer that timed out completes the next one: `Witnesses.StaleInterrupt`;
  `Protocol.StaleCompletionExact`.
- Two channels may use one mapping, and then it can be unmapped under a running stream:
  `Witnesses.MappingLost`; `Mappings.MarksExact`.
- Mapping a state page without memory for it returns with the device mutex held: `Witnesses.MutexLost`;
  `Protocol.MmapMutexExact`.
- The legacy read delivers other or stale bytes for some unaligned requests: `LegacyRead.UndeliverableRead`;
  `LegacyRead.CircularReadExact`.
- From the channel that reads a stream, whose transfers ignore the block, it skips bytes of the stream for some
  requests: `LegacyRead.UnstreamableRead`; `LegacyRead.StreamReadExact`.

## Model

| member | source | states |
|---|---|---|
| Gcd.Gcd | linux/dma_descriptors.c:57-65 | Euclid's loop ends and its result has exactly the common divisors of both numbers |
| Gcd.GcdUnique | linux/dma_descriptors.c:56-65 | that property determines the result |
| Gcd.GcdPageSizes | linux/dma_descriptors.c:76-95 | the scan that skips a size equal to its predecessor returns the number whose divisors are exactly those of all sizes; 0 for no sizes |
| Descriptors.CheckBytesPerDesc | linux/dma_descriptors.c:201-216 | a fixed size is rejected exactly when it misses the data width, exceeds the maximum, or fails to divide some entry |
| Descriptors.ValidateParams | linux/dma_descriptors.c:172-248 | each of the nine flags is raised exactly by a violation of its rule, and only a bad channel is an error |
| Descriptors.AcceptedIsNoFlags | linux/dma_descriptors.c:172-248 | the result 0 means that no rule is violated |
| Generator.AcceptedExact | linux/dma_descriptors.c:172-248 | validation in numbers: units, limits and bursts of each channel, the 32-bit end of the window, sizes that divide all entries, modes, directions, and the interval against the assumed count |
| Descriptors.AcceptedWindowInside | linux/dma_descriptors.c:192-199 | an accepted window lies in the mapping if and only if its end does not wrap at 32 bits |
| Descriptors.WrappedWindowAccepted | linux/dma_descriptors.c:195-196 | a concrete accepted request whose window exceeds its mapping |
| Descriptors.AllocNumExact | linux/request.c:174-226 | the number of descriptors that the generator may fill in is the number needed modulo 2^26, as their size in bytes is a 32-bit number |
| Window.WindowTiles | linux/dma_descriptors.c:264-305 | the chunks of a window lie in order inside single entries, are at most the step long, and add up to the window |
| Window.TilingMeaning | linux/dma_descriptors.c:264-305 | any such tiling touches exactly the bytes of the window, each once and in order |
| Window.WholeSegmentsExact | linux/dma_descriptors.c:211-215 | every segment is a whole number of fixed-size chunks if and only if total and offset pass the divisibility test |
| Window.FixedSizeExact | linux/dma_descriptors.c:250-255 | descriptors of one size can tile the window in any way at all if and only if that test holds, and then the code's chunks are total / size such descriptors |
| Window.WholeChunks | linux/dma_descriptors.c:283-303 | with whole segments every chunk has the full size and their number times the size is the total |
| Capacity.OneChunkPerPage | linux/dma_descriptors.c:125-134 | if entries meet at memory pages the flexible plan needs at most one descriptor per memory page of the window |
| Capacity.PagesTouchedBound | linux/dma_descriptors.c:159-170 | a window touches at most ceil(total / PAGE_SIZE) + 1 pages, and exactly the ceiling when it starts at a page |
| Capacity.DefaultModeFits | linux/dma_descriptors.c:159-170 | in DEFAULT mode the buffer sized before the entries are looked at always suffices, for any offset and fragmentation |
| Buffers.WorstMapping | linux/dma_descriptors.c:125-134 | for every window there is a mapping, no larger than the window needs, whose plan takes as many descriptors as the window touches pages, and on which the request is accepted if it is on any |
| Buffers.StreamModeNeverRunsOut | linux/dma_descriptors.c:373-375 | in STREAM mode the planned count fits the buffer sized from the request if the window touches no more pages than its rounded-up size, so whenever it starts at a page |
| Buffers.StreamModeFitsExact | linux/dma_descriptors.c:159-170 | in STREAM mode the buffer holds the plan of every mapping that the request compiles against if and only if the window touches no more pages than its rounded-up size |
| Buffers.StreamModeRefused | linux/dma_descriptors.c:373-375 | an accepted STREAM request that needs two descriptors and may fill in one |
| Buffers.DefaultModeTight | linux/dma_descriptors.c:159-170 | in DEFAULT mode there is for every flexible window of more than a byte a mapping whose plan takes all of its buffer |
| Meaning.ListMeaning | linux/dma_descriptors.c:283-303 | a list whose descriptors address a tiling of the window copies the requested bytes in order, either direction, streaming or memory-mapped |
| Generator.FindStart | linux/dma_descriptors.c:112-123 | the first loop finds the entry and offset of byte map_offset |
| Generator.CountFlexible | linux/dma_descriptors.c:125-134 | the second loop adds up the rounded-up segments without underflow or running past the list |
| Generator.CreatePlan | linux/dma_descriptors.c:97-144 | the plan has the planned count, the start of the window and the common divisors of the sizes |
| Generator.RoundUpExact | linux/dma_descriptors.c:131 | rounding up on 32-bit operands is exact if and only if the sum does not wrap, and too small otherwise |
| Generator.PlanCountExact | linux/dma_descriptors.c:125-134 | planned and filled count are equal if and only if no segment exceeds 2^32 minus the maximum transfer; otherwise the plan is too small |
| Generator.CompilableExact | linux/dma_descriptors.c:172-248 | for a validated request, compilable is a test on the request and the first entry of its window |
| Generator.CompilableChunks | linux/dma_descriptors.c:97-144 | the chunks of a compilable request tile the window and are as many as planned |
| Generator.MisalignedOffsetAccepted | linux/dma_descriptors.c:211-215 | a concrete validated request that no fixed-size descriptors can tile |
| Generator.FillOne | linux/dma_descriptors.c:286-297 | addresses and length of one descriptor, by direction and channel kind |
| Generator.FillSegment | linux/dma_descriptors.c:283-303 | the inner loop ends, stays inside the planned descriptors and writes the chunks of one entry |
| Generator.FillEntry | linux/dma_descriptors.c:277-304 | one round of the outer loop takes one entry off the remaining window |
| Generator.FillAddresses | linux/dma_descriptors.c:265-305 | the differently shaped nested loops write exactly the planned chunks, one descriptor each |
| Generator.FillFlagsDefault | linux/dma_descriptors.c:307-321 | the last descriptor alone gets the interrupt flag, and the early-done flags are set before it |
| Generator.FillFlagsStream | linux/dma_descriptors.c:323-340 | the interrupt is raised by every last descriptor of an interval |
| Generator.FillOtherFields | linux/dma_descriptors.c:351-363 | sequence numbers, strides and bursts |
| Generator.Generate | linux/dma_descriptors.c:365-387 | refused exactly when the plan exceeds the buffer, otherwise the buffer starts with the list of the request and is untouched behind it |
| Generator.GeneratedMeaning | linux/dma_descriptors.c:365-387 | a generated list copies byte j of the device data to byte map_offset + j of the scattered buffer, each once and in order |
| Generator.DefaultModeNeverRunsOut | linux/dma_descriptors.c:373-375 | with flexible sizes, DEFAULT mode never reports a descriptor buffer that is too small |
| Generator.FixedSizeFitsExact | linux/request.c:174-227 | with a fixed size, in either mode, the buffer suffices if and only if fewer than 2^26 descriptors are needed |
| Generator.NeededExact | linux/dma_descriptors.c:159-170 | with a fixed size exactly the planned descriptors are asked for, and in DEFAULT mode one more |
| Generator.WrappedListRefused | linux/request.c:174-227 | an accepted request for 2^26 descriptors that may fill in one |
| Overrun.StaysInsideExact | linux/dma_descriptors.c:277-304 | over 32-bit words, the fixed-size filling loops write no descriptor beyond the plan if and only if every segment that they come to is a whole number of descriptors |
| Overrun.OverrunExact | linux/dma_descriptors.c:277-304 | for an accepted request whose size divides its total this is the same as being compilable |
| Overrun.MisalignedOverruns | linux/dma_descriptors.c:277-304 | an accepted request that is filled past its plan |
| Overrun.FlexibleOverrunExact | linux/dma_descriptors.c:277-304 | in flexible mode the filling loops stay inside the plan if and only if a segment whose count wraps is the last planned one, or as many descriptors are planned after it as it takes; compilable requests do |
| Overrun.FlexibleOverruns | linux/dma_descriptors.c:125-134 | an accepted request of flexible sizes that is planned as one descriptor and filled past it |
| Boundaries.TransferLengthExact | linux/dma_descriptors.c:250-262 | the asserted multiples of the data width: they hold exactly for a fixed size, or if every segment of the window is a multiple, which follows when all entries are |
| Irq.CadenceExact | linux/dma_descriptors.c:323-340 | every cyclic window of interval descriptors has exactly one interrupt if and only if the interval divides the ring |
| Irq.GeneratedCadenceExact | linux/dma_descriptors.c:323-340 | a generated ring of either size mode has that cadence if and only if its interval divides it, and else a silent window |
| Irq.StreamCadence | linux/dma_descriptors.c:233-240 | an accepted fixed-size stream has that cadence and n / interval interrupts a round |
| Irq.FlexibleCadenceFails | linux/dma_descriptors.c:234-240 | an accepted ring of flexible sizes with a window of an interval's length without any interrupt |
| Irq.DefaultInterrupt | linux/dma_descriptors.c:307-321 | in a generated DEFAULT list exactly one descriptor raises the interrupt: the last, with which the last byte of the request is copied |
| Irq.DefaultSignals | linux/dma.c:652-683 | and so the walk over the published list raises it with its last step alone |
| Irq.StreamInterrupts | linux/dma_descriptors.c:323-340 | in a generated ring descriptor k raises it if and only if the interval divides k + 1, and none does without an interval |
| Irq.GeneratedFields | linux/dma_descriptors.c:307-363 | early-done flag, sequence number, strides and bursts of every generated descriptor, by channel |
| DescCheck.RangeInSgt | linux/dma_descriptors.c:452-470 | whatever entry is cached, the answer is that of a plain scan: non-empty, not overflowing, inside one entry |
| DescCheck.ValidateDescMem | linux/dma_descriptors.c:472-487 | a list is accepted exactly if all its descriptors are inside the mapping |
| DescCheck.OwnEntryExact | linux/dma_descriptors.c:444-450 | a generated descriptor is inside its own entry exactly if the page offset does not push it out |
| DescCheck.GeneratedAccepted | linux/dma_descriptors.c:472-487 | without page offsets every generated descriptor is accepted |
| DescCheck.AcceptanceExact | linux/dma_descriptors.c:444-487 | for any mapping and window, a generated list is accepted if and only if each chunk, where the generator puts it, fits some entry |
| DescCheck.OffsetDisagreement | linux/dma_descriptors.c:444-450 | on entries with gaps, for any window, a generated list is accepted if and only if no page offset pushes the used part of its entry over the end |
| DescCheck.NeighbourAccepts | linux/dma_descriptors.c:444-450 | over two adjacent entries every list is accepted although the first has a page offset |
| Boundaries.FixedSizeStaysInPage | linux/dma.c:503-548 | fixed sizes that divide 256 KiB, on entries and a start that they divide, give descriptors that cross no page of the table |
| PageTable.FindFirstZero | linux/altera_pcie.h:130-163 | the lowest clear bit, or -1 for a full word; never 16 or more |
| PageTable.MaskedPage | linux/dma.c:482 | masking an address gives the start of its 256 KiB page |
| PageTable.TranslateAddr | linux/altera_pcie.h:214-222 | the slot number above the 18-bit offset, 0 for an invalid slot |
| PageTable.PageTable.constructor | linux/altera_pcie.h:122-126 | an empty table |
| PageTable.PageTable.Alloc | linux/altera_pcie.h:166-174 | takes the first free slot, or reports a full table unchanged |
| PageTable.PageTable.Take | linux/altera_pcie.h:170-173 | sets one slot and its bit, and no other |
| PageTable.PageTable.FreeSlot | linux/altera_pcie.h:177-187 | frees one slot, ignores an invalid one |
| PageTable.PageTable.FreeByChannel | linux/altera_pcie.h:190-197 | frees exactly the slots of the channel |
| PageTable.PageTable.Find | linux/altera_pcie.h:199-207 | the first slot that holds the page for the channel, or -1 |
| PageTable.FreeSlotsIsolation | linux/altera_pcie.h:190-197 | the channel is left without pages, and every other channel's slots are as before |
| PageTable.AllocIsolation | linux/altera_pcie.h:166-174 | a new page is added for one channel, every slot in use stays, and no channel holds a page twice |
| PageTable.FindValueExact | linux/altera_pcie.h:199-207 | the search succeeds exactly for the pages that the channel holds |
| Translate.RunIsolation | linux/dma.c:503-548 | a relocation takes only free slots, for its own channel, and never a page that the channel has |
| Translate.CleanupRestores | linux/dma.c:545-547 | freeing the channel's slots after a failure leaves the table as if the relocation had not happened |
| Translate.ShortcutExact | linux/dma.c:518-529 | after a successful relocation every address has a slot that holds its page if and only if the page sequence is safe for the one-entry shortcut |
| Translate.RunsAreSafe | linux/dma.c:518-529 | visiting each page in one contiguous run, none at address 0, is safe |
| Translate.AlternationUnsafe | linux/dma.c:518-529 | a sequence of two new pages in turn is not safe |
| Translate.NextSlot | linux/dma.c:518-529 | one step of the search with its shortcut |
| Translate.TranslateRw | linux/dma.c:503-548 | the active descriptors are relocated to the slots of the run, or the table is full and the channel's slots are freed; other directions change nothing |
| Publish.BuildLinks | linux/dma.c:560-588 | every descriptor links to the next and is owned by the hardware; the last closes the ring or is zeroed |
| Publish.RegPairSelects | linux/dma.c:608-611 | the register pair written for a page selects exactly that page, in the 64-bit space |
| Publish.SetTranslationRegs | linux/dma.c:602-617 | exactly the registers of the channel's slots are written |
| Publish.TranslateLink | linux/dma.c:480-499 | the list gets a slot of its own and its device-side address |
| Publish.StartOnTable | linux/dma.c:652-683 | both translations: slots for the list and its data, or the table and state after each failure |
| Publish.TranslateList | linux/dma.c:659-682 | list and data are relocated, or the channel is in ERROR without slots, or nothing happened |
| Publish.LinkAndProgram | linux/dma.c:670-672 | after links and registers the list is published as the run says |
| Publish.DmaStart | linux/dma.c:652-683 | a start publishes the relocated, linked and programmed list and points the prefetcher at it; each failure leaves the stated state |
| Space.RunFullExact | linux/dma.c:518-529 | a relocation finds the table full if and only if its pages that are neither held nor seen before are more than the free slots |
| Space.NewPagesDistinct | linux/dma.c:518-529 | without a page at address 0 these are the distinct pages that the channel does not hold |
| Space.RunUsesExact | linux/dma.c:503-544 | a relocation uses as many entries as there are new pages, and then the channel holds these and the ones from before |
| Space.StartExact | linux/dma.c:652-683 | a transfer starts if and only if it is from the device and the free slots are at least one for the list and one for each new page; nothing happens exactly without a free slot |
| Walk.Links | linux/dma.c:560-588 | the links of a published list |
| Walk.ChainWalk | linux/dma.c:560-588 | in DEFAULT mode the walk visits exactly the active descriptors in order and stops at the software-owned terminator, if the list is read where it lies |
| Walk.RingWalk | linux/dma.c:577-581 | in STREAM mode the walk goes around the ring from any descriptor for any number of steps, if the list is read where it lies |
| Walk.ReachesExact | linux/dma.c:480-499 | all descriptors of a list of any size are read where they lie if and only if the registers from its slot on select its pages in order |
| Walk.ChainWalkExact | linux/dma.c:560-588 | whatever lies around the list, the walk is the chain if and only if every descriptor and the terminator are read where they lie |
| Walk.RingWalkExact | linux/dma.c:577-581 | ... and so for the ring |
| Walk.AroundAt | linux/dma.c:577-581 | step i from descriptor k executes descriptor (k + i) mod n |
| Walk.SlotsOwned | linux/dma.c:518-529 | every slot that a relocation uses belongs to its channel |
| Walk.CrossingExact | linux/dma.c:531-533 | the bytes of a range of any length resolve to their addresses if and only if the registers from its slot on select its pages in order |
| Walk.MovesExact | linux/dma.c:652-683 | what relocated descriptors copy equals what the original ones copy if and only if every byte resolves to its address |
| EndToEnd.ResolutionExact | linux/dma.c:503-548 | in flight, all data addresses resolve if and only if the page sequence is safe and every descriptor stays in its page or goes on into the pages that the next slots select |
| EndToEnd.ListReadExact | linux/dma.c:480-499 | in flight, the list is read where it lies if and only if it stays in its page or goes on into the pages that the next slots select |
| EndToEnd.ListInPageExact | linux/dma.c:490-494 | a list in memory that is aligned to a power of two not below its size lies in one page if and only if it has at most 4096 descriptors |
| EndToEnd.PublishedKeeps | linux/dma.c:503-588 | publication changes the host address, the link and the owner of a descriptor, and nothing else: interrupts, numbers, lengths and parameters stay |
| EndToEnd.ChainTransferExact | linux/dma.c:652-683 | any started chain executes its descriptors once and in order, stops, and copies what they say, whatever lies around it, if and only if data and list pass their tests |
| EndToEnd.ContainedListExact | linux/dma.c:652-683 | with any memory around a list that passes, the copy is right if and only if the data passes |
| EndToEnd.DefaultTransferExact | linux/dma.c:652-683 | the walk over the published list executes it and copies the request, byte by byte, if and only if data and list pass their tests, descriptors and lists across a page included |
| EndToEnd.DefaultTransferInRuns | linux/dma.c:652-683 | when each page is visited in one run, if and only if the descriptors and the list are contained |
| EndToEnd.ChainCopyExact | linux/dma.c:652-683 | of the copy alone: for safe data whose descriptors start at different addresses it is right, whatever lies around the list, if and only if the list passes |
| EndToEnd.StreamRoundExact | linux/dma.c:652-683 | the first round of a stream executes the ring and copies the request if and only if data and list pass |
| EndToEnd.StreamTransferExact | linux/dma.c:652-683 | any positive number of rounds goes around the ring and copies the device's data into the window, round after round, if and only if data and list pass |
| EndToEnd.StreamTransfer | linux/dma.c:652-683 | also for no rounds at all, if they pass |
| EndToEnd.RingTransferExact | linux/dma.c:652-683 | the same for any started ring and what its descriptors say |
| EndToEnd.RingCopyExact | linux/dma.c:652-683 | of the copy alone: for safe data whose descriptors start at different addresses it is right, whatever lies around the list, if and only if the list passes |
| Transfers.Compile | linux/request.c:216-257 | the list part of init_dma_info: the coherent buffer holds the generated list with agreeing sizes, exactly if the plan is no larger than the number asked for, however large the buffer is |
| Transfers.CompileAndStart | linux/request.c:333-352 | compiled and started: a transfer starts exactly if its plan is no larger than the number asked for, it is from the device and the table has room, and then it is one that the end-to-end results are about |
| Transfers.TakesOff | linux/dma.c:652-683 | every accepted, compilable request of a size that can be allocated, for which the table has room, has such a transfer |
| Transfers.CrossingMiscopies | linux/dma.c:531-533 | a started transfer of one descriptor across a page that copies something else |
| Transfers.AlternationMiscopies | linux/dma.c:518-529 | a started transfer over two pages in turn that copies something else |
| Transfers.PlanTooSmall | linux/dma_descriptors.c:131 | an accepted request of nearly 4 GiB that is planned as no descriptor at all |
| LongLists.LongRingStrays | linux/dma.c:490-494 | accepted rings of more than 4096 descriptors that start, whose data is safe, whose descriptor 4096 is looked for in the data buffer, and that copy what lies around the list decides |
| LongLists.ShortestLongRing | linux/dma.c:490-494 | the one of 4097 descriptors |
| UserLists.TakeUserList | linux/request.c:190-210 | a list of the user is copied and taken exactly if all its descriptors lie inside the mapping |
| UserLists.TakeAndStart | linux/request.c:333-352 | and its transfer starts exactly if then the table has room |
| UserLists.UserTransferExact | linux/request.c:190-210 | a validated list in DEFAULT mode is executed and copies what it says if and only if data and list pass their tests |
| UserLists.UserStreamExact | linux/request.c:190-210 | and one in STREAM mode, round after round |
| UserLists.UserStaysInside | linux/dma_descriptors.c:472-487 | a validated list that passes writes nothing outside its mapping, whatever lies around the list |
| UserLists.UserInsideExact | linux/dma_descriptors.c:472-487 | a validated list in DEFAULT mode writes only inside its mapping if and only if every part of every descriptor in a window of the table goes to addresses of the mapping |
| UserLists.UserRingInsideExact | linux/dma_descriptors.c:472-487 | ... and one in STREAM mode |
| UserLists.UserListContained | linux/request.c:142-146 | a list of at most 256 descriptors in aligned memory passes the test on lists |
| UserLists.UserEscapes | linux/dma.c:531-533 | a validated list that starts and writes outside its mapping, whatever lies around the list |
| Stream.DecodeIsModulo | linux/main.c:482-483 | mask and remainder agree for every ring size, also for one descriptor |
| Stream.RingMaskExact | linux/request.c:76-79 | the mask is the number of descriptors minus one exactly for powers of two, and 0 otherwise |
| Stream.SyncRange | linux/main.c:500-508 | the bounded loop visits count ring indices from the old one on |
| Stream.StreamInfo.constructor | linux/request.c:65-78 | counters at zero and the mask of the ring |
| Stream.StreamInfo.HandleIrq | linux/main.c:455-517 | one interrupt moves the index to the register's, adds the advance to the counter, synchronises the descriptors in between, and its guard never fires |
| Stream.SyncedDistinct | linux/main.c:500-508 | the synchronised indices are in bounds and none occurs twice |
| Stream.PositionInvariant | linux/main.c:474-512 | in every reachable state the index lies in the ring and is the accounted position modulo n |
| Stream.ProducedInvariant | linux/main.c:490-514 | ... and the counter is the size of the accounted descriptors modulo 2^64 |
| Stream.ProducedCongruent | linux/main.c:490-514 | as long as the counter has not wrapped it is congruent to the size of one descriptor times the index modulo the ring |
| Stream.CongruentAlwaysExact | linux/main.c:490-514 | in every reachable state, across the wrap of the counter, if and only if the size of the ring divides 2^64 |
| Stream.WrapLoses | linux/main.c:490-514 | a history that moves one descriptor at a time and shows it on any other ring |
| Stream.SequenceNumbersExact | linux/dma_descriptors.c:357 | 16-bit sequence numbers identify the descriptors of a ring if and only if it has at most 65536 |
| Stream.GeneratedNumber | linux/dma_descriptors.c:357 | the number in the register is the one generated into the ring descriptor |
| Stream.TrackingExact | linux/main.c:482-490 | on rings of at most 65536 descriptors the accounted position is the true one at every interrupt if and only if the hardware never moves a whole ring between two |
| Stream.TrackableExact | linux/main.c:482-490 | every history with short steps is tracked if and only if the ring has at most 65536 descriptors |
| Stream.TruncatedNumberLost | linux/dma_descriptors.c:357 | on any longer ring the step onto descriptor 65536 is lost |
| Stream.ProducedPerDescriptor | linux/main.c:490-514 | and then, on such rings, the counter is the configured size times the number of descriptors that the hardware completed |
| SyncData.FixedDescriptor | linux/dma.h:65-74 | descriptor k of a fixed-size list covers the k-th block of the window |
| SyncData.SyncCoversNewData | linux/main.c:500-508 | the bytes synchronised by an interrupt are exactly the stream bytes between the old and the new counter, each once and in order |
| Delivery.ProducedExact | linux/main.c:478-514 | for a generated list, the counter is the size of the descriptors that the hardware completed, modulo 2^64, with a fixed size, and 0 with flexible sizes; below 2^64 it is right if and only if the size is fixed or nothing is completed |
| Delivery.FlexibleStreamSilent | linux/main.c:478-491 | an accepted stream whose reader never learns of its data |
| Delivery.AnnouncedIsSynced | linux/main.c:500-514 | whatever the hardware reports, all that has been synchronised are the stream bytes that the counter has announced, in order and each once |
| Delivery.ReaderSeesStream | linux/main.c:455-517 | at every interrupt of a stream that passes its tests, the counter is the number of bytes that the hardware has copied, and the places synchronised are the ones that it has copied to, in order |
| Reachable.AbortOk | linux/dma.c:779-790 | an abort leaves the channel not running and its fast interrupt off, and no other channel touched |
| Reachable.ResetOk | linux/request.c:280-313 | a reset channel is idle, has no slots and no mapping, its stream reference is returned, and no other channel is touched |
| Reachable.StartTableOk | linux/dma.c:652-683 | a start takes slots for its channel alone, no page twice, and none stays after a failure |
| Reachable.AllocListOk | linux/dma.c:396-446 | the descriptor buffer holds what was asked for, or the request failed; its capacity is 0 exactly without a buffer |
| Reachable.MakeListOk | linux/request.c:173-254 | size and active size of a list agree with its mode and fit the buffer, for user and generated lists, despite 32-bit truncation |
| Reachable.InitPageOk | linux/request.c:50-81 | a state page set up for a list has one more reference and serves the handler on that ring |
| Reachable.InitExact | linux/request.c:163-276 | init_dma_info succeeds if and only if the request passes a test on its size, the memory, its list and the state page |
| Reachable.InitOk | linux/request.c:163-276 | the channel takes the request completely, or nothing but its buffer changed |
| Reachable.ExecuteOk | linux/request.c:333-372 | an execute keeps the invariant, touches one channel, and a refused one changes nothing |
| Reachable.StepKeeps | linux/request.c:280-372 | every step of the driver keeps the invariant: ownership of slots, counted references, agreeing sizes, settled channels |
| Reachable.ChannelIsolation | linux/altera_pcie.h:166-207 | no step changes the record, the fast interrupt or a slot of a channel that it is not about |
| Reachable.Always | linux/request.c:280-372 | the invariant holds in every reachable state of three interleaved channels |
| Reachable.SizesAtStart | linux/dma.c:685-746 | at every start, after any run, desc_size is desc_active plus the terminator, not 0, and within the capacity |
| Reachable.CompiledListFits | linux/request.c:216-231 | a list compiled into the buffer meets what the state machine expects of it |
| Steps.CancelDoes | linux/request.c:757-771 | a cancel leaves its channel idle, without mapping, slots and fast interrupt, its mapping unmarked, its stream reference given back and its user mappings kept, and resets the controller that its record names; nothing else changes, and nothing at all for a channel that does not exist |
| Steps.CleanupDoes | linux/request.c:367-372 | so does the cleanup of an execute, but that it leaves controller and fast interrupt of a transfer that no longer runs |
| Steps.UnlockDoes | linux/request.c:728-743 | unlocking is a cancel of the channel that is marked, if one is, and then the mapping is gone; other mappings are refused |
| Steps.ReleaseDoes | linux/main.c:138-160 | in every reachable state, releasing a file is unlocking its mappings one after the other |
| Steps.AllocDoes | linux/dma.c:396-446 | when there is a buffer for a list, how large it is, and that it is gone after a failed replacement |
| Steps.ExecuteRefused | linux/request.c:106-276 | a request that is not acceptable changes nothing, one that does not initialise changes the descriptor buffer alone |
| Steps.ExecuteDoes | linux/request.c:333-372 | one that initialises is taken: record, state page, mapping, fast interrupt, slots and controller, and whether it is then waited for, left to stream, or cleaned up |
| Steps.StartedWaits | linux/request.c:354-365 | an execute that starts a DEFAULT transfer waits for it, one that starts a stream leaves the device ready |
| Steps.CleansAfterWait | linux/request.c:362-371 | in every run a transfer that still runs is cleaned up only after a wait that ended without completion |
| Steps.MmapDoes | linux/main.c:335-356 | mapping the state page adds a reference, or makes a page with fresh counters, or loses the mutex |
| Steps.VmaDoes | linux/main.c:305-317 | the fork and the end of a user mapping count it up and down, and the page goes with the last reference |
| Steps.FilesDo | linux/request.c:705-724 | opening a file, locking a buffer and the end of a wait do just that |
| Steps.IrqDoes | linux/main.c:523-560 | an interrupt that is not fast is collected; a fast one changes the counters of its channel alone |
| Steps.FastIrqDoes | linux/main.c:455-517 | on every record that a handler can work on, in any state, it is one step of the producer |
| Steps.WorkDoes | linux/main.c:383-427 | the tasklet hands over the collected interrupts once, the work of a channel is done once |
| Steps.CompletionsPaid | linux/main.c:383-427 | in every run no interrupt completes more than one transfer |
| Protocol.StateGraph | linux/request.c:280-313 | which steps make which change of state; no others occur |
| Protocol.ValidateExact | linux/request.c:106-159 | a request goes on if and only if its channel exists and is idle, its mapping exists, is the driver's or the file's own and admits its direction, that direction is one of the two, and a list of the user is of the type, whole, and of at most 256 descriptors; and exactly when it is busy or too large |
| Protocol.ExecuteAllowed | linux/request.c:106-159 | an execute that changes anything passed those checks |
| Protocol.ExecuteStartsExact | linux/request.c:333-352 | an execute on an idle channel starts its transfer if and only if the request passes a test made before it |
| Protocol.RoomWhenIdle | linux/dma.c:518-529 | on an idle channel room is one free slot for the page of the list and one for each other page of the data |
| Protocol.BetweenIoctls | linux/request.c:333-372 | with no ioctl in progress every channel is idle and holds nothing, or runs a stream whose handler is ready |
| Protocol.ExecuteEndsIdle | linux/request.c:333-372 | an execute that waits ends with its channel idle and without slots or mapping, under every interleaving with interrupts, completion and timeout |
| Protocol.SuccessIsCompletion | linux/tpce.h:222-240 | success is reported only for a transfer marked complete |
| Protocol.NothingCompletes | linux/dma.c:831-850 | without an interrupt, now or pending, nothing completes in any run |
| Protocol.StaleCompletionExact | linux/main.c:383-392 | a transfer can complete without an interrupt of its own if and only if an earlier one is still in the tasklet or the work queue |
| Protocol.CompletionExact | linux/main.c:523-560 | a waited-for transfer can be completed if and only if its fast interrupt is off or an earlier interrupt is pending |
| Protocol.FastIrqExact | linux/dma.c:730-746 | the fast interrupts stay those of the running streams after every step except exactly the valid stream requests that are not from the device or need more slots than are free |
| Protocol.StreamKeepsCounters | linux/main.c:305-374 | mapping, unmapping and forking the state page never reset or free the counters of a stream; references change with user mappings alone |
| Protocol.HandlerExact | linux/main.c:455-517 | the handler of a channel that holds a stream, running or not, never faults, performs one producer step on its ring, and changes nothing else |
| Protocol.PreciseIsSafe | linux/main.c:455-517 | as long as the fast interrupts are those of running streams no handler divides by zero, lacks a mapping or leaves its list |
| Protocol.MmapMutexExact | linux/main.c:342-356 | mmap leaves the device mutex free exactly if the page exists or memory for it does; otherwise no ioctl ever follows |
| Mappings.MarksExact | linux/request.c:106-147 | mappings and channels point at each other after every step except exactly the valid requests that initialise on a mapping in use |
| Mappings.UnmapMarks | linux/request.c:90-103 | a mapping that is dropped is used by no channel any more |
| Mappings.CleanRuns | linux/request.c:90-103 | in runs without those two kinds of steps every transfer has a live mapping of its own and no handler faults |
| Mappings.ListsStep | linux/request.c:705-743 | the list of a file holds exactly the mappings that the file owns, after every step |
| Mappings.ListsAlways | linux/main.c:145-152 | ... and so in every reachable state |
| Mappings.ReleaseComplete | linux/main.c:138-160 | releasing a file drops exactly its mappings |
| Mappings.MappingsFrom | linux/request.c:705-724 | in every reachable state a mapping has the owner and the direction that it was locked with |
| Controllers.AbortResets | linux/dma.c:748-782 | in every reachable state an abort resets the controller of its channel if an earlier request of the run was taken by it, and else that of channel 0 |
| Controllers.NamesExact | linux/request.c:268-269 | in every reachable state the channel stored in the parameters is the channel's own if and only if it is channel 0 or an earlier request of the run was taken by it |
| Controllers.EnginesExact | linux/request.c:757-771 | every step keeps the controllers of running transfers running except exactly the cancel of a channel without a request while channel 0 runs |
| Controllers.StopsExact | linux/request.c:757-771 | those cancels, in terms of the run: of a channel other than 0 that has taken no request, while channel 0 runs |
| Controllers.EnginesAlways | linux/dma.c:748-790 | in runs without such steps every running transfer has its controller running |
| Controllers.StreamSilenced | linux/request.c:757-771 | a run after which a stream runs without its controller |
| Flights.CompiledStartsExact | linux/request.c:163-352 | an execute for a list of the driver's own starts its transfer if and only if it passes a test on request, mapping, memory and table |
| Flights.StartCarries | linux/request.c:333-352 | a start in the state machine is the start of a transfer that the end-to-end results are about, generated for its request or validated for its user |
| Carried.RunningCarries | linux/request.c:280-372 | in every reachable state every running channel carries the transfer of one step of the run: of that step's request, on the memory of its mapping, with its list, over the table and registers of that moment; the channel has run since, and its record, slots and registers are still those of the transfer |
| Carried.StreamCarried | linux/request.c:333-352 | such a run |
| Carried.CarriedNow | linux/dma.c:602-617 | whatever other channels have started since, the registers of a running channel's slots select its pages |
| Carried.RunningPerforms | linux/dma.c:652-683 | a running transfer performs its request through the registers as they are if and only if data and list pass their tests on them; for lists and descriptors inside their pages that is a test on the pages alone |
| Carried.RunningStreams | linux/dma.c:652-683 | ... and a running stream, round after round |
| Carried.CountersOfRun | linux/main.c:455-517 | in every reachable state the counters of a running stream are those of the producer after the interrupts of its channel since it started |
| Carried.ReaderOfRun | linux/main.c:455-517 | so that the counter on the page of a running stream is the number of bytes copied through the registers as they are, and the synchronised places are the ones copied to |
| Witnesses.LeakedInterrupt | linux/dma.c:730-746 | a run after which a waiting transfer cannot be completed |
| Witnesses.DivisorLost | linux/main.c:482-483 | a run after which the handler divides by zero on any register |
| Witnesses.LoopLost | linux/dma.h:65-74 | a run after which the loop of the handler has no mapping to synchronise |
| Witnesses.MutexLost | linux/main.c:342-356 | a run that leaves the device mutex held for good |
| Witnesses.MappingLost | linux/request.c:90-103 | a run after which a stream runs on a mapping that is gone |
| Witnesses.StaleInterrupt | linux/main.c:383-392 | a run after which a transfer can be completed by an earlier interrupt |
| Driver.IrqsTogether | linux/main.c:523-560 | one interrupt of several channels is one of each, whatever the order |
| Driver.IrqBits | linux/dma.c:700-707 | the interrupts of channels 0, 1 and 2 are bits 0, 8 and 10 of the register |
| Driver.Driver.constructor | linux/dma.c:59-82 | the device before its first ioctl |
| Driver.Driver.Abort | linux/dma.c:779-790 | takes the abort step |
| Driver.Driver.ResetController | linux/dma.c:748-776 | stops the controller that the parameters of the channel name |
| Driver.Driver.FreeStreamInfo | linux/request.c:83-88 | gives one reference back and drops the page with the last |
| Driver.Driver.ResetDmaInfo | linux/request.c:280-313 | takes the reset step |
| Driver.Driver.GiveUp | linux/request.c:300-312 | the reset of a stopped channel |
| Driver.Driver.SafeUnmap | linux/request.c:90-103 | stops the channel of a busy mapping, then drops the mapping |
| Driver.Driver.Cancel | linux/request.c:757-771 | takes the cancel step; a bad channel changes nothing |
| Driver.Driver.ReleaseFile | linux/main.c:138-160 | the loop drops every mapping of the file in turn |
| Driver.Driver.LockBuffer | linux/request.c:705-724 | a new mapping, owned by the file, used by no channel |
| Driver.Driver.UnlockBuffer | linux/request.c:728-743 | drops a mapping that the file owns, refuses any other |
| Driver.Driver.AllocDescriptorsMem | linux/dma.c:396-446 | keeps a buffer that is large enough, replaces it otherwise; sizes after each outcome |
| Driver.Driver.InitStreamInfo | linux/request.c:50-81 | takes or makes the page, resets its counters, sets the mask |
| Driver.Driver.PrepareList | linux/request.c:173-254 | buffer, content and sizes of the list |
| Driver.Driver.InitDmaInfo | linux/request.c:163-276 | takes the init step, with each failure |
| Driver.Driver.StartDma | linux/dma.c:652-683 | the start of a transfer on the device, with the state of the channel after each failure |
| Driver.Driver.EnableStreamIrq | linux/dma.c:700-712 | sets the fast interrupt of one channel |
| Driver.Driver.Dispatch | linux/request.c:316-331 | takes the dispatch step for each mode |
| Driver.Driver.ValidateRequest | linux/request.c:106-159 | the verdict on a request, with the order of its checks |
| Driver.Driver.Execute | linux/request.c:333-360 | takes the execute step up to the wait or the cleanup |
| Driver.Driver.CleanUp | linux/request.c:367-372 | takes the cleanup step |
| Driver.Driver.DmaWork | linux/main.c:383-392 | takes the completion step |
| Driver.Driver.Tasklet | linux/main.c:397-427 | queues the work of every channel whose interrupt was collected |
| Driver.Driver.Isr | linux/main.c:523-566 | handles the fast interrupts, and collects all others for the tasklet |
| Driver.Driver.MmapStream | linux/main.c:335-356 | takes the mmap step |
| Driver.Driver.OpenVma | linux/main.c:305-308 | takes the step of a forked mapping |
| Driver.Driver.CloseVma | linux/main.c:310-317 | takes the step of an ended mapping |
| LegacyRead.MaskAlign8 | linux/request.c:618-624 | the mask 0xFFFFFFF8 rounds down to a multiple of 8 |
| LegacyRead.BlockMasks | linux/request.c:572-584 | the block mask clears, and its complement keeps, the position in a block of 2^n entries |
| LegacyRead.BlockAddrAligned | linux/request.c:586-612 | the device address of a block is a multiple of 8, with 32-bit wrap-around |
| LegacyRead.CircularReadExact | linux/request.c:572-694 | a request in range that is not refused delivers the block read around its end, for every memory and old buffer content, if and only if it passes an alignment test on address and count |
| LegacyRead.DeliveredFrom | linux/request.c:572-694 | a deliverable request delivers byte k from 0x40000000 + input * region + 2 * block size * block number + (2 * address + k) mod block, modulo 2^32, with regions of 256 or 128 MiB and unknown inputs as input 0 |
| LegacyRead.BlocksDisjoint | linux/request.c:586-612 | blocks of different inputs or numbers that fit their regions have no byte in common |
| LegacyRead.ReadInNumbers | linux/request.c:572-694 | how many bytes are delivered, and the two tests, as arithmetic on address, count and block size |
| LegacyRead.LengthsInNumbers | linux/request.c:614-694 | the lengths of the transfers |
| LegacyRead.FitsInNumbers | linux/request.c:564-568 | requests that always fit the driver buffer, and those that never do |
| LegacyRead.UndeliverableRead | linux/request.c:614-626 | a request in range, not refused and not delivered |
| LegacyRead.StreamReadExact | linux/request.c:572-694 | from a channel that reads a stream, and whose read address is set to 0, it delivers the next bytes of the stream if and only if it passes another test |
| LegacyRead.UnstreamableRead | linux/request.c:614-626 | a request to channel 2 in range, not refused and not delivered |
| LegacyRead.ReadKernelDmaBuffer | linux/request.c:384-422 | the driver buffer after a transfer, from memory or from the stream of the channel, or unchanged |
| LegacyRead.CopyToUser | linux/request.c:424-439 | copies a range of the driver buffer, or refuses one outside it |
| LegacyRead.ReadToUser | linux/request.c:441-450 | a transfer followed by a copy |
| LegacyRead.ReadDirect | linux/request.c:614-626 | the branch inside the block stores the delivered bytes and nothing else |
| LegacyRead.ReadOverFull | linux/request.c:627-641 | so does the branch for more than the block |
| LegacyRead.ReadSplit | linux/request.c:642-694 | so does the branch in two segments |
| LegacyRead.ReadRequestA | linux/request.c:551-694 | the branches together: refused outside the buffer, else the bytes are stored that lie at the requested places, or come next in the stream, if the request passes the test of its source |

## Left out

- PCI probe and removal, register windows, sysfs, character device, configuration space and register ioctls: plumbing over kernel interfaces.
- Pinning, vmap, dma_map_sgtable, coherent allocation and cache maintenance calls: their results are parameters or the scatter list.
- Mutexes, spin locks and memory barriers: critical sections are steps. The interleavings inside one mutex section, such as an interrupt between init_dma_info and dma_start, are not modelled.
- mmap of a state page and its undoing after a failed remap: the undoing is a step of its own that may come at any time, as it does without the mutex.
- The early return of mmap and of ioctls when the device is being removed, and removal itself.
- TO_DEVICE relocation, which the code answers with an error, is modelled as that error.
- The other width of addresses: the build for 32-bit addresses and pcie_translate_addr_32.
- tpce_dma_stream_stop: nothing calls it.
- A reset after the channel's mapping was dropped under it: the code writes to the record that is gone, the model writes nothing.
- The saturation of kernel reference counts: references are integers, shown never to drop below 0.
- tpce_fill_default_dma_params and tpce_fill_streaming_dma_params: they only fill in constants.
- NULL arguments of the descriptor functions, and the ioctl size checks: no caller inside the driver reaches them.
- Timeouts of the controller reset: an abort always succeeds in the model, as the code goes on either way.
- LegacyRead.ReadRequestA: reads with a stride other than 1 and the envelope fields are not modelled, as the code gives them no clear meaning; block sizes are the powers of two from 1024 on that the interface documents, and the start lies in its block.
- Generator.FillAddresses: accepted requests that are not compilable are not filled; there the code writes past its plan exactly as Overrun.StaysInsideExact and Overrun.FlexibleOverrunExact say, or leaves the end of the window out. In the state machine such a request leaves some list of the planned length behind, and a stream has at least one descriptor.
- Generator.Generate: the same requests.
- PageTable.PageTable.Alloc: a full table is the early return that its guard intends; what the code does instead, writing slot -1, is not modelled.
- Driver.Driver.Isr: application interrupts and the enabling of interrupts are not modelled.
