# Microkit verification project

Dafny models of the parts of Microkit that decide what a system image contains and how
events travel through it at run time, with proofs of what those parts promise. Every model
follows the branches, constants and error cases of the code it cites. Code that changes
state in place is a class or a method with loops, proved against a specification function;
what the code promises is then proved about that function.

`dafny verify dfyconfig.toml` checks the whole project.

## What is modelled

The tool:

- `MemoryRegions` (`regions.dfy`): the interval set of `lib.rs` as a refinement of a set of
  addresses, and the kernel-style split of a range into aligned powers of two, under 64-bit
  wrap-around of kernel virtual addresses.
- `KernelBoot` (`kernelboot.dfy`): the boot emulation of `sel4.rs`. The lists of regions it
  goes through are functions of the platform, and every outcome is tied to them: which check
  fails first, where the root-server objects go, and which untypeds are made. Memory is
  conserved: which addresses the untypeds stand for and that they do not overlap.
- `Allocator` (`allocator.dfy`): the greedy object allocator. Safety with fixed-address
  objects, and optimality without them: the verdict is true exactly when some placement
  exists. What a failed check that does not end the run leads to.
- `BootAllocation` (`bootalloc.dfy`): both joined: the verdict for the untypeds that an emulated
  boot leaves, and alignment as the kernel sees it.
- `PageTables` and `ElfLoading` (`pagetables.dfy`, `elfload.dfy`): mapping a page refines
  the update of a partial map from pages to frames, for three and four levels and for a
  top level of 10 bits; loading an ELF then makes every segment byte readable at its address.
  Addresses beyond the limit of the tables are included: there the space repeats.
- `Channels`, `CapSpaces`, `Events` (`channels.dfy`, `cspace.dfy`, `events.dfy`): the channel
  checks of the parser, the capability spaces that the builder makes from an accepted system,
  and the path of a signal, an interrupt, a protected call and a fault from sender to handler.
  Interrupts signal through the capability that the tool binds to them. Also the pointers that
  user code makes for the capabilities it asked for.
- `EndToEnd` (`endtoend.dfy`): these joined with the handler loop below: what a whole run enters
  for what arrived through the capabilities of an accepted and built system.
- `Renumber` (`renumber.dfy`): sorting and renumbering keep the capability graph, and the
  order is the one the allocator relies on. Names may repeat: when the pass then stops, and
  which references survive, is part of the model.
- `PdFlatten` (`pdflatten.dfy`): the flattened domain tree can be rebuilt.
- `ElfFiles` (`elffile.dfy`): writing an ELF and reading it back.
- `LoaderImage` (`loader.dfy`): layout and packing of the loader's regions, with the
  loader's own copy loop as the inverse, from the regions to memory after the copy.
- `RiscvBoot`, `Aarch64Boot` (`riscvboot.dfy`, `aarch64boot.dfy`): the boot page tables, byte by
  byte, against the translation that the hardware performs on them (section 4.4 of the RISC-V
  Privileged Architecture 20211203; section D8.3 of ARM DDI 0487).
- `Crc32` (`crc32.dfy`): the checksum of clause 3.2.9 of IEEE 802.3 and the bursts it detects.

The run-time library and the example:

- `HandlerLoop` (`handler.dfy`): `handler_loop` with its deferred signals, for arbitrary user
  code and arbitrary messages.
- `PacketRings` (`rings.dfy`): the rings between the Ethernet drivers and the pass domain under
  every interleaving of their steps.

`Powers`, `Words`, `Bytes` and `BootTables` hold the arithmetic of powers of two, bit
operations on natural numbers, little-endian encodings and table entries; `KernelConfig`
(`config.dfy`) is the kernel configuration that the tool reads.

## Where the code does not do what one might expect

Each of these is proved, with the exact condition under which the expected property holds; only
for overlapping payloads there is a sufficient condition and a failing image instead.

- A channel from a domain to itself may use one id at both ends; if both ends notify, one
  slot gets two capabilities. That is the only way left to fill a slot twice
  (`Events.SlotsUnique`, `Channels.SelfChannelIsAccepted`).
- The parser takes user slots up to 127, but only those below 64 are in the root node, so the
  pointer of a higher one is null. The pointer of a slot that holds another domain's CNode is
  resolved through that CNode (`Events.UserSlotResolves`, `Events.UserSlotsThatMiss`).
- The pointer by which a parent would restart or stop a child resolves to nothing: the TCB is
  in the root node, and the pointer is taken in the Microkit node (`Events.ChildTcbUnreached`).
- A child id of 256 or more loses its high bits on the way to `fault`; from 310 on the slot for
  the child's TCB stops the tool, until the slot wraps around at 32 bits
  (`Events.LargeChildIdIsLost`, `Events.ChildIdsTaken`).
- Header offsets are multiplied in 16 bits when an ELF is read. A file with more than 1171
  program headers is written but not read: a build with overflow checks stops; a release build
  reads sizes in place of types and returns the segments of the first 1171 headers if and only
  if no size looks like a loadable header (`ElfFiles.RoundTrip`, `ElfFiles.StraysAreSizes`,
  `ElfFiles.LateSegmentsAreLost`).
- Objects are renumbered by name, but names can repeat: for domains `a` and `a_root` one name
  stands for the root CNode of the first and the CNode of the second, and the pass stops on the
  reference to the earlier of the two (`Renumber.CNodeNamesUnique`, `Renumber.SharedNameStops`).
- The section flags of an executable segment say writable and not executable
  (`ElfFiles.SectionFlagsMissExecutable`).
- An ELF segment beyond the limit of the page tables lands at its address modulo the limit and
  can collide with one that shares no address with it (`ElfLoading.LoadedBytes`,
  `ElfLoading.AliasedSegments`).
- Without error printing, the simulated allocation ignores the check of the fixed addresses: it
  panics exactly when a fixed object starts outside all untypeds and below one of them, and
  otherwise its verdict looks at the other objects alone (`Allocator.SpecContainer.Simulate`).
- An empty region inside another one fails the overlap check, although they share no address
  (`LoaderImage.ClearMeans`).
- A region whose destination overlaps the packed data passes the overlap check and can arrive
  corrupted (`LoaderImage.PayloadOverlapCorrupts`).
- On RISC-V the kernel mapping is also right without congruence modulo 2 MiB if the whole
  kernel part of the GiB lies behind the level-3 table (`RiscvBoot.KernelMappedExactly`).
- The boot tables for the kernel can hide the identity mapping of the loader or of the serial
  port (`RiscvBoot.TextMappedExactly`, `Aarch64Boot.LoaderMappedExactly`,
  `Aarch64Boot.UartMappedExactly`).
- A passive domain that deferred a signal in `init` never sends that signal: the hand-off to
  the monitor replaces it (`HandlerLoop.PassiveHandOff`).
- `insert_region` never joins a range to both neighbours (`MemoryRegions.InsertedMeaning`).
- `remove_region` adds addresses when its range is given in reverse
  (`MemoryRegions.ReversedMeaning`).

## Model

| member | source | states |
|---|---|---|
| Powers.Log2Bounds | tool/microkit/src/util.rs:11-13 | `msb`: the greatest k with 2^k at most x |
| Powers.TrailingZerosMax | tool/microkit/src/util.rs:15-17 | `lsb`: x is a multiple of 2^k exactly for k up to the number of trailing zeros |
| KernelBoot.RoundUpIsMultiple | tool/microkit/src/util.rs:39-45 | `round_up` gives the multiple in [n, n + x) |
| KernelBoot.RoundDownIsGreatest | tool/microkit/src/util.rs:48-54 | no multiple of x that is at most n exceeds `round_down` |
| MemoryRegions.DisjointMemoryRegion.Check | tool/microkit/src/lib.rs:205-213 | passes exactly when neighbours do not overlap |
| MemoryRegions.DisjointMemoryRegion.InsertRegion | tool/microkit/src/lib.rs:215-244 | succeeds exactly when the range is not empty and disjoint from the set; the set then grows by exactly that range and stays sorted and disjoint; the number of regions grows unless the range joins one neighbour |
| MemoryRegions.InsertMeaning | tool/microkit/src/lib.rs:215-244 | the insertion as a function of the list: some list exactly when the range is not empty and disjoint from the given one, and that list is sorted and stands for the union |
| MemoryRegions.InsertedMeaning | tool/microkit/src/lib.rs:215-244 | the list after the insertion passes the check exactly when the range was disjoint, and then stands for the union |
| MemoryRegions.DisjointMemoryRegion.RemoveRegion | tool/microkit/src/lib.rs:246-273 | succeeds exactly when one held region contains the range, and the set then shrinks by exactly that range; with reversed ends it succeeds exactly when the range touches a border of its region and nothing else, and then the set grows by it |
| MemoryRegions.RemovedMeaning | tool/microkit/src/lib.rs:246-273 | trimming, splitting or deleting the containing region yields the set difference |
| MemoryRegions.ReversedMeaning | tool/microkit/src/lib.rs:246-273 | with reversed ends the edited list passes the check exactly when the range is added disjointly, and then stands for the union |
| MemoryRegions.DisjointMemoryRegion.Allocate | tool/microkit/src/lib.rs:294-315 | the lowest aligned block that fits in one held region, or nothing exactly when there is none; exactly that block is taken out |
| MemoryRegions.DisjointMemoryRegion.AllocateFrom | tool/microkit/src/lib.rs:317-333 | the lowest large enough region at or above the bound gives up its first bytes; nothing exactly when there is no such region |
| MemoryRegions.BlocksTile | tool/microkit/src/lib.rs:156-195 | the pieces tile the range in order, without gap or overlap, whether or not virtual addresses wrap |
| MemoryRegions.BlocksAreBlocks | tool/microkit/src/lib.rs:156-195 | every piece is a power of two of at most the given size, aligned in kernel virtual addresses |
| MemoryRegions.BlocksAtMost | tool/microkit/src/lib.rs:156-195 | at most 2 msb(size) + 1 pieces when the maximum does not bind |
| MemoryRegions.AlignedPowerOfTwoRegions | tool/microkit/src/lib.rs:156-195 | the loop terminates with exactly that decomposition |
| KernelBoot.NPagingCountsWindows | tool/microkit/src/sel4.rs:91-96 | `get_n_paging` counts exactly the aligned windows that meet the region |
| KernelBoot.PartialBoot | tool/microkit/src/sel4.rs:55-81 | the device list is that of inserting the given regions one by one, the normal list the same without the kernel image; it fails exactly when two given regions overlap or one is empty, or else when no region of the normal list contains the kernel image, and the reason says which |
| KernelBoot.HeldMeaning | tool/microkit/src/sel4.rs:55-68 | the regions can all be inserted exactly when none is empty and no two overlap; the list then holds exactly their addresses |
| KernelBoot.GivenIsHeld | tool/microkit/src/sel4.rs:55-68 | every given region lies within one region of the list |
| KernelBoot.AvailableMemory | tool/microkit/src/sel4.rs:163-202 | the lists of `PartialBoot` with the initial task taken out of normal memory, for an image of the same size; otherwise the failure that comes first |
| KernelBoot.HighestPlace | tool/microkit/src/sel4.rs:186-207 | trying regions from the top finds the highest aligned place there is, and none exactly when there is none |
| KernelBoot.BlocksOfCover | tool/microkit/src/lib.rs:275-286 | splitting all regions keeps the address set and the order |
| KernelBoot.MakeBootInfo | tool/microkit/src/sel4.rs:208-250 | the untyped list is device blocks, boot-region blocks, blocks of normal memory, numbered in that order |
| KernelBoot.UntypedsOfLists | tool/microkit/src/sel4.rs:208-250 | capability numbers are consecutive, device untypeds stand for device memory, the others for boot region and normal memory; they are powers of two, aligned in kernel virtual addresses, and no two overlap if the memories do not |
| KernelBoot.EmulateKernelBoot | tool/microkit/src/sel4.rs:163-250 | fails exactly when one of its checks fails on the lists of regions that it holds at that point, with the first such check as the reason; otherwise the root-server block is the highest aligned fit in the list left without kernel image and initial task, and the untypeds are the numbered blocks of the device list, the boot region and that list without the block |
| KernelBoot.BootConserves | tool/microkit/src/sel4.rs:163-250 | conservation: the untypeds are powers of two, aligned in kernel virtual addresses, disjoint on a sound platform, and stand for exactly device memory, the boot region, and normal memory without kernel image, initial task and root-server block |
| KernelBoot.FailureMeans | tool/microkit/src/sel4.rs:163-207 | what each reason for a failure says: sizes differ, given regions overlap, no held region contains the kernel image or the task, no aligned place is left; without a failure all five are false |
| Allocator.FirstWithoutPaddr | tool/microkit/src/capdl/allocation.rs:49-52 | the fixed-address objects are exactly the prefix found |
| Allocator.BuildWindows | tool/microkit/src/capdl/allocation.rs:45-70 | the id window of each size holds exactly the ordinary objects of that size |
| Allocator.SortIsByBase | tool/microkit/src/capdl/allocation.rs:35-43 | the untypeds are visited in ascending order of their bases, each once |
| Allocator.CheckOne | tool/microkit/src/capdl/allocation.rs:72-107 | looking at the last untyped at or below the address suffices: with disjoint untypeds it passes exactly when some untyped holds the object |
| Allocator.CheckFixed | tool/microkit/src/capdl/allocation.rs:72-125 | a passed check means that every fixed-address object lies in an untyped, and conversely for disjoint untypeds |
| Allocator.LargestLeft | tool/microkit/src/capdl/allocation.rs:157-172 | the largest size within the bound that is left, or none exactly when nothing within it is left |
| Allocator.SpecContainer.PlaceOne | tool/microkit/src/capdl/allocation.rs:157-196 | records the next object of the largest size left at the watermark and spends one id of its window, and nothing else |
| Allocator.SpecContainer.FillStep | tool/microkit/src/capdl/allocation.rs:147-205 | one round moves the watermark forward and never past the target, and keeps placements inside, disjoint and, in a free untyped, greedy |
| Allocator.SpecContainer.FillTo | tool/microkit/src/capdl/allocation.rs:140-205 | the watermark ends on the target; an untyped without fixed objects is filled by every size still left |
| Allocator.GreedyBound | tool/microkit/src/capdl/allocation.rs:147-155 | in a free untyped the `ilog2` bound never hides a size that is left and fits |
| Allocator.GreedyPlace | tool/microkit/src/capdl/allocation.rs:147-192 | sizes never increase, so each object placed in a free untyped is aligned to its own size |
| Allocator.SpecContainer.PlaceFixed | tool/microkit/src/capdl/allocation.rs:206-231 | panics exactly when the watermark is not on the fixed address; otherwise the object lands there and stays inside |
| Allocator.SpecContainer.FillUntyped | tool/microkit/src/capdl/allocation.rs:129-236 | never panics when the fixed objects ahead fit; consumes those of this untyped and keeps all placements inside and disjoint; panics exactly when the watermark has passed a fixed address |
| Allocator.SpecContainer.FillNext | tool/microkit/src/capdl/allocation.rs:129-236 | one untyped further, the invariant of the whole run holds again |
| Allocator.SpecContainer.FillAll | tool/microkit/src/capdl/allocation.rs:129-236 | the invariant holds at the end of the run; the panic, and how many fixed objects are placed, are those of the walk over their addresses alone |
| Allocator.SpecContainer.Simulate | tool/microkit/src/capdl/allocation.rs:29-260 | with a passed check and fixed objects sorted and disjoint: no panic, all placements inside their untypeds, disjoint, aligned where no fixed object is, and true exactly when every object that needs memory is placed; without fixed objects and with power-of-two untypeds: true exactly when some placement exists; when a failed check does not end the run: a panic exactly when a fixed object starts outside all untypeds and below one, otherwise fixed objects are placed at their addresses exactly where they start in an untyped, and the verdict is whether all others are placed |
| Allocator.Verdict | tool/microkit/src/capdl/allocation.rs:238-259 | spent windows are a complete placement, and conversely |
| Allocator.Shortfall | tool/microkit/src/capdl/allocation.rs:238-259 | if a size is left over, no placement at all exists |
| Allocator.NoPlacement | tool/microkit/src/capdl/allocation.rs:129-259 | counting: when every untyped that could hold 2^s is full of objects of at least 2^s and one such object is left, no placement exists |
| Allocator.FixedRun | tool/microkit/src/capdl/allocation.rs:129-236 | walking the untypeds upward meets a fixed address below its watermark only if that object is stranded below an untyped; otherwise every object that starts in an untyped is taken |
| BootAllocation.FitsAfterBoot | tool/microkit/src/main.rs:476-497 | the boot outcome is that of `EmulateKernelBoot`, and without one the verdict is false; on a sound platform a positive verdict comes with a complete placement in the untypeds of that boot, in which objects are aligned in kernel virtual addresses, and without fixed addresses the verdict is positive exactly when there is a placement |
| PageTables.LevelIndexIs | tool/microkit/src/capdl/memory.rs:48-74 | the shifts and masks of every architecture and level give the digit of the address in that level's width |
| PageTables.CoverageStartIs | tool/microkit/src/capdl/memory.rs:76-87 | the coverage of a table starts at the greatest multiple of its span |
| PageTables.SamePathIsSamePage | tool/microkit/src/capdl/memory.rs:48-74 | two addresses take the same path exactly when they lie in the same page of the space, which repeats beyond its limit |
| PageTables.PageBelowLimit | tool/microkit/src/capdl/memory.rs:48-74 | below the limit pages are numbered by their addresses |
| PageTables.SpecContainer.InsertCapIntoPageTableLevel | tool/microkit/src/capdl/memory.rs:109-141 | fails and changes nothing exactly when the slot is taken, otherwise adds the entry |
| PageTables.SpecContainer.MapIntermediaryLevelHelper | tool/microkit/src/capdl/memory.rs:145-217 | the object in the slot, or a new table named after its level and coverage, linked into the slot; an error below a frame |
| PageTables.SpecContainer.MapRecursive | tool/microkit/src/capdl/memory.rs:259-313 | the objects after the descent are those of the specification function |
| PageTables.SpecContainer.MapPage | tool/microkit/src/capdl/memory.rs:315-335 | the same from the root, for 4 KiB and 2 MiB pages |
| PageTables.MapPageRefines | tool/microkit/src/capdl/memory.rs:259-335 | after Ok every address of the page looks up to the new frame and every other address as before, and the tables are still a forest with rising levels; Err exactly when a frame lies on the path or the slot is taken, and then nothing changed |
| PageTables.SmallPageBlocked | tool/microkit/src/capdl/memory.rs:259-335 | a small page is refused exactly when its address is already mapped |
| PageTables.WalkIsLook | tool/microkit/src/capdl/memory.rs:259-313 | walking down from a table equals following the path from the root |
| PageTables.MapFromKeepsFrames | tool/microkit/src/capdl/memory.rs:259-335 | mapping never changes an object that is not a table |
| PageTables.MapFromKeepsNames | tool/microkit/src/capdl/memory.rs:145-217 | every table stays named after its domain, level and coverage start |
| PageTables.NamesUnique | tool/microkit/src/capdl/memory.rs:145-217 | no two tables below the roots share a name, so coverage starts are distinct per level |
| PageTables.SpecContainer.CreateVSpace | tool/microkit/src/capdl/memory.rs:219-238 | adds one empty root table at the top level |
| PageTables.FreshRootMapsNothing | tool/microkit/src/capdl/memory.rs:219-238 | a new address space maps no address |
| ElfLoading.PageFillExact | tool/microkit/src/capdl/builder.rs:219-254 | the fill of a page covers exactly the bytes of the page that belong to the segment, from the matching place of the segment |
| ElfLoading.LoadPage | tool/microkit/src/capdl/builder.rs:218-291 | one page more is loaded, or an earlier page had taken its place |
| ElfLoading.LoadSegment | tool/microkit/src/capdl/builder.rs:206-291 | all pages of a segment, or two pages take one place |
| ElfLoading.AddElfToSpec | tool/microkit/src/capdl/builder.rs:193-291 | succeeds exactly when no two pages of the segments take one place in the space; then the new address space holds the segments and every other address space is unchanged |
| ElfLoading.LoadedBytes | tool/microkit/src/capdl/builder.rs:206-291 | looking up any address of a segment, or one a multiple of the limit away, finds a frame whose fill holds exactly that segment's byte; any other address has no byte |
| ElfLoading.PagesApartInSpace | tool/microkit/src/capdl/builder.rs:206-291 | for segments below the limit the condition says that no page holds bytes of two segments |
| ElfLoading.SameByteIsModulo | tool/microkit/src/capdl/memory.rs:48-74 | two addresses name one byte exactly when they are congruent modulo the limit |
| ElfLoading.AliasedSegments | tool/microkit/src/capdl/builder.rs:206-291 | segments one address space apart are refused, although they share no address |
| Channels.CheckIrqs | tool/microkit/src/sdf.rs:2114-2131 | passes exactly when the interrupt ids of every domain are distinct |
| Channels.CallsUpCheck | tool/microkit/src/sdf.rs:2158-2187 | passes exactly when protected calls go to strictly higher priority and not to a virtual machine's domain on x86 |
| Channels.CheckChannels | tool/microkit/src/sdf.rs:2114-2191 | the growing lists accept exactly the systems in which ids of interrupts and of ends of different channels differ and calls go up |
| Channels.SelfChannelIsAccepted | tool/microkit/src/sdf.rs:2133-2191 | a domain may name itself twice with one id |
| Channels.CallsLeaveDomain | tool/microkit/src/sdf.rs:2158-2172 | an accepted protected call never stays in its domain |
| Channels.EndsUnique | tool/microkit/src/sdf.rs:2133-2191 | with proper channels, an id in a domain belongs to one end of one channel |
| CapSpaces.CallTargetNeedsEp | tool/microkit/src/sdf.rs:470-477 | whoever is called has an endpoint, so the builder's expectation never fails |
| CapSpaces.SpecBuilder.FirstCaps | tool/microkit/src/capdl/builder.rs:596-798 | the fixed capabilities of a domain, and an endpoint exactly for a domain that needs one |
| CapSpaces.SpecBuilder.AddDomain | tool/microkit/src/capdl/builder.rs:584-1046 | the spaces of the domains so far, each as specified, survive adding the next one; stops exactly when the slot of a child's TCB is out of range |
| CapSpaces.SpecBuilder.InsertChildTcb | tool/microkit/src/capdl/builder.rs:717-734 | the child's TCB enters its parent's root node at 202 plus its id, cut to 32 bits, or stops the tool at 512 and above |
| CapSpaces.SpecBuilder.AddNotify | tool/microkit/src/capdl/builder.rs:1119-1141 | one notification capability with the peer's bit in the right node, no other node changed |
| CapSpaces.SpecBuilder.AddCall | tool/microkit/src/capdl/builder.rs:1143-1173 | one endpoint capability with the peer's id in the right node; the endpoint it takes exists |
| CapSpaces.SpecBuilder.AddChannel | tool/microkit/src/capdl/builder.rs:1112-1174 | every node holds its domain's capabilities followed by those of the channels so far |
| CapSpaces.SpecBuilder.AddUserCaps | tool/microkit/src/capdl/builder.rs:1180-1221 | the requested capabilities, each of its kind, enter the root node behind the Microkit node and the children's TCBs |
| CapSpaces.SpecBuilder.Build | tool/microkit/src/capdl/builder.rs:584-1221 | all spaces are as specified and no expected endpoint is missing; it stops exactly when the slot of some child's TCB is out of range |
| Events.SlotsUnique | tool/microkit/src/capdl/builder.rs:1112-1174 | in an accepted system no slot is filled twice, except exactly by a self-channel whose two equal ends both notify |
| Events.ResolvesInNode | tool/microkit/src/capdl/builder.rs:1016-1041 | a pointer below 512 passes the 6-bit root and the 49-bit guard and finds the entry of the 9-bit node |
| Events.UserSlotResolves | libmicrokit/include/microkit.h:591-606 | the pointer made from a user slot resolves to the capability asked for exactly when the slot is below 64, the capability is not for a CNode, and no child's TCB took the slot; from 64 on it resolves to nothing, and for a CNode to what is in that CNode's slot 0 |
| Events.UserSlotsThatMiss | tool/microkit/src/sdf.rs:1362-1422 | an accepted and buildable system with slot 64 and with a CNode in slot 1, whose pointers miss both |
| Events.ChildrenStayClear | tool/microkit/src/capdl/builder.rs:726-733 | a child id that does not wrap its slot around takes no user slot |
| Events.ChildTcbUnreached | libmicrokit/include/microkit.h:131-164 | the pointer that restart and stop use for a child resolves to nothing |
| Events.NotificationBitsAre | tool/microkit/src/symbols.rs:105-122 | bit i is set exactly when some end with id i in the domain notifies |
| Events.PpBitsAre | tool/microkit/src/symbols.rs:105-122 | bit i is set exactly when some end with id i in the domain makes protected calls |
| Events.PatchedMasks | tool/microkit/src/symbols.rs:105-133 | the loop computes those masks and the OR of the interrupt bits |
| Events.NotifyReaches | libmicrokit/include/microkit.h:107-117 | the guard of `microkit_notify` passes exactly when its pointer resolves, and it resolves to the peer's notification badged with the peer's bit |
| Events.CallReaches | libmicrokit/include/microkit.h:166-176 | the same for `microkit_ppcall`: the endpoint of another domain, badged as a call with the peer's id |
| Events.AckReaches | libmicrokit/include/microkit.h:119-129 | the guard of `microkit_irq_ack` passes exactly for the domain's interrupts, and the pointer resolves to that handler |
| Events.SignalBadge | tool/microkit/src/capdl/builder.rs:1119-1141 | a peer signals with the bit of the id by which the receiver knows it |
| Events.IrqBadge | tool/microkit/src/capdl/irq.rs:20-43 | the notification capability bound to an interrupt of a built domain is the domain's, badged with the bit of the interrupt's id |
| Events.SourceSignals | tool/microkit/src/capdl/builder.rs:1119-1141 | every source, peer or interrupt, has a capability to the notification of the domain, badged with the bit of the id by which the domain knows it |
| Events.SourcesApart | tool/microkit/src/sdf.rs:2114-2191 | two different sources of a domain never share an id |
| Events.SignalsDelivered | libmicrokit/src/main.c:169-199 | for any pending set of peers and interrupts the OR of the badges of the capabilities through which they signal makes the handler call `notified` for exactly those ids, once each, ascending |
| Events.CallDelivered | libmicrokit/src/main.c:169-189 | a call badge is decoded as `protected` with exactly its id |
| Events.CallEndToEnd | tool/microkit/src/capdl/builder.rs:1143-1173 | from the caller's guard to `protected` with the callee's own id |
| Events.FaultDelivered | libmicrokit/src/main.c:169-175 | the fault capability that a child of an accepted system gets goes to its parent's endpoint, which exists, and its badge is decoded as a fault of the child's id modulo 256 |
| Events.FaultCapReached | tool/microkit/src/capdl/builder.rs:713-742 | slot 2 of a built domain's node holds that fault capability |
| Events.ChildIdsTaken | tool/microkit/src/capdl/util.rs:263-275 | the tool takes a child id, below the wrap, exactly when it is below 310 |
| Events.LargeChildIdIsLost | tool/microkit/src/capdl/builder.rs:717-734 | an accepted and buildable system with child 256: its faults go to the parent and are decoded as child 0 |
| HandlerLoop.ProtectionDomain.DeferNotify | libmicrokit/include/microkit.h:564-576 | a valid channel becomes the pending signal, replacing an earlier one; an invalid channel changes no signal |
| HandlerLoop.ProtectionDomain.DeferIrqAck | libmicrokit/include/microkit.h:578-590 | the same for an acknowledgement |
| HandlerLoop.ProtectionDomain.DeferredFlush | libmicrokit/src/main.c:77-83 | sends the pending signal, if any, and clears it |
| HandlerLoop.ProtectionDomain.WaitForMessage | libmicrokit/src/main.c:158-167 | the three ways of receiving |
| HandlerLoop.ProtectionDomain.CallNotified | libmicrokit/src/main.c:191-198 | the shift loop runs `notified` for the set bits in ascending order |
| HandlerLoop.ProtectionDomain.Dispatch | libmicrokit/src/main.c:169-199 | one message runs the entry point its badge stands for and remembers whether to reply |
| HandlerLoop.ProtectionDomain.AckAtStart | libmicrokit/src/main.c:133-144 | the start-up loop acknowledges the set bits |
| HandlerLoop.ProtectionDomain.HandlerLoop | libmicrokit/src/main.c:124-201 | the loop equals the run of the state machine on the same messages |
| HandlerLoop.ProtectionDomain.Boot | libmicrokit/src/main.c:203-221 | `main` equals the whole run, with the hand-off of a passive domain |
| HandlerLoop.RunIsAllowed | libmicrokit/src/main.c:124-221 | whatever the user code does and whatever arrives, each action of a run is allowed by the protocol |
| HandlerLoop.DeferredSentOnce | libmicrokit/include/microkit.h:564-590 | the last signal deferred before a receive is sent exactly once, no later than that receive |
| HandlerLoop.SendHasCause | libmicrokit/src/main.c:77-83 | a signal that is sent was deferred, not replaced, and not sent before |
| HandlerLoop.AnswerIsSent | libmicrokit/src/main.c:158-161 | an answer is sent by the very next receive |
| HandlerLoop.ProtectedIsAnswered | libmicrokit/src/main.c:187-189 | every `protected` call is answered by the next receive, with its own reply |
| HandlerLoop.ReplyHasCause | libmicrokit/src/main.c:169-189 | a reply answers exactly a call or fault handled since the previous receive |
| HandlerLoop.HandleEntries | libmicrokit/src/main.c:169-199 | a message enters exactly the functions its badge stands for |
| HandlerLoop.LoopEntries | libmicrokit/src/main.c:146-200 | a run enters exactly the functions of its messages, in order of arrival |
| HandlerLoop.StartAcksAreTheMask | libmicrokit/src/main.c:133-144 | start-up acknowledges exactly the bits of `microkit_irqs`, once each, ascending |
| HandlerLoop.PassiveHandOff | libmicrokit/src/main.c:203-221 | the first receive of a passive domain signals the monitor, in place of anything `init` deferred |
| EndToEnd.ArrivalEnters | libmicrokit/src/main.c:169-199 | a message that came through the capabilities of an accepted and built system enters `notified` for exactly the ids of its sources, `protected` with the id of the called end, or `fault` with the id of the child |
| EndToEnd.RunEntersArrivals | libmicrokit/src/main.c:146-200 | whatever the user code does, the run of a domain enters exactly those functions for all its arrivals, in order |
| PacketRings.PublishOk | example/ethernet/pass.c:214-230 | setting the flag of the producer's slot appends its content to the queue |
| PacketRings.ReleaseOk | example/ethernet/pass.c:203-231 | clearing the flag of the consumer's slot removes the oldest packet |
| PacketRings.RxKeeps | example/ethernet/eth.c:933-951 | every step of the receiving driver keeps its invariant and the ring's |
| PacketRings.PassKeeps | example/ethernet/pass.c:200-273 | every step of the pass domain, each with at most one access to a ring, keeps its invariant and those of both rings |
| PacketRings.TxKeeps | example/ethernet/eth.c:1041-1061 | every step of the sending driver, with or without a free transmit descriptor, keeps its invariant and the ring's |
| PacketRings.ExecKeeps | example/ethernet/pass.c:200-273 | the invariant holds after every interleaving |
| PacketRings.RingIsFifo | example/ethernet/pass.c:200-273 | accepted packets are those released followed by those in the flagged slots, at most 1024 |
| PacketRings.FlagsAreTheWindow | example/ethernet/pass.c:200-273 | the slots with flag 1 are exactly the cyclic window from consumer to producer |
| PacketRings.DeliveredInOrder | example/ethernet/pass.c:200-273 | what reaches the device is, uncorrupted and in order, a part of what came in, and each stage passes on a part of the one before |
| PacketRings.DropOnlyWhenFull | example/ethernet/eth.c:937-951 | a packet is dropped exactly when the next ring holds 1024 packets or, at the end, no transmit descriptor is free |
| PacketRings.ReadersUndisturbed | example/ethernet/pass.c:203-231 | no other domain's step changes a slot that is being read |
| PacketRings.KeptIsSubsequence | example/ethernet/pass.c:200-273 | the kept packets are the marked positions of the input, in order |
| PacketRings.LinesAreIndependent | example/ethernet/pass.c:200-273 | with both directions interleaved, each line behaves as on its own |
| Crc32.ComputeCrc32 | tool/microkit/src/crc32.rs:7-24 | the nested loops compute the checksum function |
| Crc32.BytesAreBits | tool/microkit/src/crc32.rs:7-24 | the byte loop equals the bit-serial form, low bit first |
| Crc32.ShiftIsLinear | tool/microkit/src/crc32.rs:11-19 | one step is linear over XOR |
| Crc32.StaysDifferent | tool/microkit/src/crc32.rs:7-24 | states that differ at bit k or above stay different when the inputs differ only in the next k bits |
| Crc32.BurstDetected | tool/microkit/src/crc32.rs:7-24 | messages of equal length that differ only within 32 consecutive bits have different checksums |
| PdFlatten.CheckIds | tool/microkit/src/sdf.rs:1853-1874 | no clash exactly when child ids are distinct and differ from the virtual machine's |
| PdFlatten.TreeToList | tool/microkit/src/sdf.rs:1848-1897 | fails exactly when some id in the tree clashes, otherwise the preorder with global parent positions |
| PdFlatten.Flatten | tool/microkit/src/sdf.rs:1904-1918 | the same for the list of roots |
| PdFlatten.FlattenLength | tool/microkit/src/sdf.rs:1904-1918 | one entry for every domain |
| PdFlatten.FlattenLinksRealParents | tool/microkit/src/sdf.rs:1876-1897 | entry k is domain k of the preorder; a root has no parent and every other entry names the position of the domain whose child it is |
| PdFlatten.FlattenIsInvertible | tool/microkit/src/sdf.rs:1848-1918 | parents come before children, roots have none, and rebuilding from the links gives back the forest with the order of children |
| Renumber.BeforeTotal | tool/microkit/src/capdl/builder.rs:1242-1278 | with different names exactly one of two objects comes first |
| Renumber.BeforeTransitive | tool/microkit/src/capdl/builder.rs:1242-1278 | the comparator is transitive |
| Renumber.TiedMeans | tool/microkit/src/capdl/builder.rs:1242-1278 | the comparator has no answer exactly for two objects that agree in address, size and name |
| Renumber.SortObjects | tool/microkit/src/capdl/builder.rs:1242-1278 | stops exactly when two objects agree in address, size and name; otherwise the result is sorted by the comparator and a rearrangement of the input |
| Renumber.NewIds | tool/microkit/src/capdl/builder.rs:1281-1287 | the map sends the last object of each name to the last place of that name in the sorted list |
| Renumber.NewIdsBijective | tool/microkit/src/capdl/builder.rs:1281-1287 | that map is a bijection |
| Renumber.RenumberObject | tool/microkit/src/capdl/builder.rs:1290-1301 | stops exactly when a slot has no new id; otherwise every slot is rewritten through the map, nothing else of the object changes |
| Renumber.SortByKey | tool/microkit/src/capdl/builder.rs:1306-1323 | entries end up ordered by key and rearranged only |
| Renumber.SortAndRenumber | tool/microkit/src/capdl/builder.rs:1223-1325 | the whole of step 6 for any spec: it stops exactly when two objects tie or a reference is not to the last object of its name; otherwise objects are sorted and references rewritten by name; with different names and references in range it never stops and every reference follows its object |
| Renumber.ReferenceKept | tool/microkit/src/capdl/builder.rs:1281-1301 | a rewritten reference is to the same object exactly when every other object of that name sorts before it |
| Renumber.SharedNameStops | tool/microkit/src/capdl/builder.rs:1281-1301 | a reference to an object whose name comes up again stops the pass |
| Renumber.CNodeNamesUnique | tool/microkit/src/capdl/builder.rs:1016-1035 | the CNodes of all domains have different names exactly when the domains have and none is named like another with `_root` behind it |
| Renumber.GraphPreserved | tool/microkit/src/capdl/builder.rs:1223-1325 | a slot of one object points to another with given rights after step 6 exactly when it did before |
| Renumber.IrqsPreserved | tool/microkit/src/capdl/builder.rs:1302-1311 | every interrupt keeps its handler |
| Renumber.SortedForAllocator | tool/microkit/src/capdl/builder.rs:1242-1278 | fixed addresses form an ascending prefix and sizes fall after it, as the allocator needs |
| LoaderImage.CheckNonOverlapping | tool/microkit/src/loader.rs:292-304 | passes exactly when the regions are pairwise clear |
| LoaderImage.ClearMeans | tool/microkit/src/loader.rs:292-304 | two regions are clear exactly when they share no address and neither is an empty one inside the other |
| LoaderImage.NewLoader | tool/microkit/src/loader.rs:480-522 | succeeds exactly when the destinations are clear of each other and of the image; the metadata describes the data laid out one behind the other |
| LoaderImage.ToBytes | tool/microkit/src/loader.rs:525-543 | image, header, region table and data, in that order |
| LoaderImage.PayloadParts | tool/microkit/src/loader.rs:525-543 | the description and the data of each region lie where the copy loop looks for them |
| LoaderImage.Memcpy | loader/src/cutil.c:10-19 | the byte loop is the forward copy, for overlapping ranges too |
| LoaderImage.CopiedIsWritten | loader/src/cutil.c:10-19 | between ranges that do not overlap the target receives the source and nothing else changes |
| LoaderImage.CopyData | loader/src/loader.c:85-96 | the loop, reading count and table anew in every turn from the memory it writes, computes the copy function on any memory, and stops where a copy would leave memory |
| LoaderImage.CopyAllUnpacks | loader/src/loader.c:85-96 | on a packed payload that no destination touches, the copy function performs exactly the copies of all regions |
| LoaderImage.PayloadOverlapCorrupts | tool/microkit/src/loader.rs:292-304 | a region that passes the overlap check and does not arrive |
| LoaderImage.CopyRestores | loader/src/loader.c:85-96 | each destination then holds its region's data; every other address, the image included, keeps its byte |
| LoaderImage.PackedImageUnpacks | tool/microkit/src/loader.rs:480-543 | what the tool packs, placed at the image's address, unpacks: destinations hold their regions, image and other memory are as before |
| LoaderImage.Pack | tool/microkit/src/loader.rs:480-543 | packing succeeds exactly when the destinations are clear of each other and of the image, and gives image and payload |
| LoaderImage.PackAndBoot | loader/src/loader.c:85-96 | packing, placing and the copy loop in one run: memory then holds the regions |
| ElfFiles.ReadSegments | tool/microkit/src/elf.rs:332-374 | the loop over the program headers, with its errors, in builds that check overflow and in builds whose 16-bit product wraps |
| ElfFiles.ElfFile.FromSegments | tool/microkit/src/elf.rs:235-265 | a file built from read segments lists its loadable headers in order |
| ElfFiles.ElfFile.AddSegment | tool/microkit/src/elf.rs:529-562 | adds exactly the given segment and keeps headers in order, with or without a second header |
| ElfFiles.ElfFile.Reserialise | tool/microkit/src/elf.rs:592-766 | headers, tables, data and string table at the offsets the headers name |
| ElfFiles.RoundTrip | tool/microkit/src/elf.rs:332-766 | reading what was written gives back addresses, flags and data, with zeros for uninitialised memory, for 1 to 1171 program headers; with none it fails; with more, a checked build fails, and a release build gives back the segments of the first 1171 headers if and only if no later header is replaced by something that looks loadable |
| ElfFiles.StraysAreSizes | tool/microkit/src/elf.rs:339-350 | with up to 2341 headers something looks loadable exactly when one of the first sizes is 1 modulo 2^32 |
| ElfFiles.LateSegmentsAreLost | tool/microkit/src/elf.rs:339-350 | more than 1171 empty segments are written, and at most 1171 are read back |
| ElfFiles.SectionFlagsMissExecutable | tool/microkit/src/elf.rs:115-198 | the section flags are those of the format exactly for segments that are not executable; an executable one is marked writable only |
| BootTables.PutEntry | tool/microkit/src/loader.rs:607-696 | writing eight bytes changes exactly one entry |
| RiscvBoot.PtesAreOrs | tool/microkit/src/loader.rs:277-287 | the encoders are the OR of page number and flags |
| RiscvBoot.Riscv64SetupPagetables | tool/microkit/src/loader.rs:607-696 | every entry of the four tables, as read back from the bytes |
| RiscvBoot.TextMappedExactly | tool/microkit/src/loader.rs:607-696 | every address from the text to the end of its GiB translates to itself exactly when the kernel's tables leave that GiB alone or happen to map it to itself |
| RiscvBoot.KernelMappedExactly | tool/microkit/src/loader.rs:607-696 | from the first virtual address to the end of its GiB, every address translates to the first physical address plus the same offset, exactly when both are congruent modulo 2 MiB or the level-3 table covers all of it |
| Aarch64Boot.BlockIsOr | tool/microkit/src/loader.rs:111-168 | the block encoder is the OR of its fields |
| Aarch64Boot.TableIsOr | tool/microkit/src/loader.rs:227-249 | the table encoder is the OR of address and type |
| Aarch64Boot.Aarch64SetupPagetables | tool/microkit/src/loader.rs:789-913 | every entry of the six tables, as read back from the bytes |
| Aarch64Boot.LowTranslation | tool/microkit/src/loader.rs:789-913 | the translation of every address below 2^48, over all the cases in which tables hide each other |
| Aarch64Boot.LoaderMappedExactly | tool/microkit/src/loader.rs:789-913 | the loader's 2 MiB pages translate to themselves exactly when they lie in one GiB and the kernel's first table entry does not replace theirs |
| Aarch64Boot.UartMappedExactly | tool/microkit/src/loader.rs:789-913 | an address of the serial port's GiB translates to itself exactly when neither the kernel's nor the loader's entry gives it another translation |
| Aarch64Boot.KernelTranslation | tool/microkit/src/loader.rs:789-913 | from the first page of the kernel to the end of its GiB, pages translate to consecutive pages |
| Aarch64Boot.KernelMappedExactly | tool/microkit/src/loader.rs:789-913 | kernel addresses translate to the first physical address plus their offset exactly when both are congruent modulo 2 MiB |

## Left out

- Allocator.SpecContainer.Simulate: after a failed check that does not end the run, states which objects are placed and where the fixed ones are, but not where the others are in an untyped that a fixed object leaves at its end.
- ElfLoading.AddElfToSpec: the TCB that the function adds last is an object without contents; a segment that reaches 2^64, where the sum of the code overflows, is outside the natural numbers of the model.
- LoaderImage.PackedImageUnpacks: takes fewer than 2^32 regions, the width of the loop counter, and needs destinations clear of the payload, which the code does not check; that the need is real is shown by one failing image, not as an equivalence, because an overlap that rewrites equal bytes does no harm.
- PacketRings.ExecKeeps: frames are 4 to 1984 bytes, below which the length without checksum wraps around and above which a frame exceeds the room behind a descriptor; memory is sequentially consistent; the domains are steps on values, because the steps of three programs interleave; when a transmit descriptor is free is up to the device.
- Events.SourcesApart: for channels that join different ends only, see the self-channel above.
- Integers are natural numbers. Where a width matters (kernel virtual addresses, 16-bit header offsets, page-table entries, badges) it is written out; elsewhere an overflow is a panic of the tool and is not modelled.
- Page-table descriptors are written as sums of their fields; `PtesAreOrs`, `BlockIsOr` and `TableIsOr` prove that the OR of the code is the same number.
- The library sort is modelled by insertion; with a total order every correct sort gives the same result.
- `handler_loop` is proved for every finite sequence of messages, in the build without VTX; x86 virtual machines and EPT address spaces are not part of the model.
- ElfFiles.StraysAreSizes: beyond 2341 headers the wrapped offsets meet other fields; `RoundTrip` then gives the condition on the bytes that are read.
- Renumber.CNodeNamesUnique: for the CNodes of domains; whether the names of all other objects differ is not part of the model.
- PageTables.NamesUnique: the names of page tables are records of their parts, so the printing of numbers in them is not modelled.
- KernelBoot.HighestPlace: a region that ends below the size of the root-server objects is a failure, as the subtraction underflows; a build without overflow checks goes on with the wrapped number.
- KernelBoot.EmulateKernelBoot: for ARM and RISC-V; the code does not emulate the boot of x86. The addresses of the kernel image come as parameters, not from its ELF file.
- Reading ELF symbols, the monitor's tables, prefilled memory regions, stacks and IPC buffers of domains.
- XML parsing, error texts, reports, argument handling and file I/O.
- The UART, GPT and timer drivers, GIC setup, SMC and SBI calls, assembly and relocation.
- seL4 itself beyond the OR of notification badges, the decoding of capability pointers and the order of system calls.
