# K-Hypervisor, modelled and proved

K-Hypervisor is a bare-metal hypervisor for ARMv7 with the Virtualization Extensions. This project models the parts of
it that hold state over time, in Dafny, and proves what each of them keeps over every run:

- **The Hyp heap** (`FreeList`, `HeapBreak`, `HeapPages`, `HeapBacking`, `HypHeap`): a circular, address-ordered,
  coalescing free list threaded through memory, over an `sbrk` that grows page by page in 32-bit arithmetic.
  `FreeList` is the list as a mathematical object, `HypHeap.Heap` the pointer program proved to be it. After any
  sequence of requests and releases the list is circular, ordered and coalesced, and free and live blocks partition
  exactly what `sbrk` granted. In any run of `sbrk` calls without a 32-bit wrap, a granted block is mapped exactly
  when every earlier increment was whole pages; so the pages of live blocks are valid exactly for the units granted
  before a growth first asked for a partial page. `HypHeap.Heap.Alloc` says in numbers what a request takes and how
  the heap grows for it.
- **Stage-2 page tables** (`Lpae`, `Stage2`): memory descriptors compiled into a three-level table in one flat array.
  For every list of well-placed descriptors, walking the table gives the address, memory type and rights that the last
  covering descriptor means; and being well placed is exactly what a descriptor needs for that.
- **Virtual interrupts** (`Word`, `ListRegister`, `VirqQueue`, `GuestRows`, `Vgic`, `VgicRuns`): list registers, slot
  tables, pending queues, maintenance, save and restore. A ledger over all guests balances in every run: what was
  accepted is what was deactivated and what some guest still holds. Nothing is deactivated that its guest had not
  ended, and each end answers for at most one deactivation. A flush moves a prefix of the queue, in order, into
  registers that were empty. Guests do not see one another: each one's view of the interface depends only on its own
  events.
- **The virtual distributor** (`Lanes`, `Enables`, `Gicd`): accesses to the set-enable and clear-enable registers, by
  word, or by byte and halfword through a pointer into the word, refine one bit set of interrupts, and the host's
  enables follow it through the loop over the exclusive or.
- **Scheduling and context switch** (`RoundRobin`, `Scheduler`, `Context`): any window as long as a round charges each
  guest exactly its quantum; a guest's registers are those of its own steps alone.
- **Breakpoints and traces** (`Breakpoints`, `Monitor`): guest code patched with traps, stepped over and re-armed. The
  guest's own words never change under any interleaving, cleaning everything gives them back, and with points that are
  apart no instruction is ever skipped.
- **Smaller protocols**: the exclusive-access spin lock (`Spinlock`), the GDB packet codec (`GdbPacket`), the interrupt
  action chains of the uC/OS-II guest (`IrqChain`) and the tag list of the Linux loader (`Atags`).

Where the code does not meet a property, the project says exactly when it does: `HeapBreak.GrantInsideHeap` (a break
that wraps 32 bits overruns the heap), `HypHeap.GrowthInside` and `HypHeap.CountWraps` (so does a request of
0xFFFFFFF1 to 0xFFFFFFF8 bytes, whose byte count wraps to zero and is granted), `HeapBreak.RunBackedExactly` and
`HypHeap.LiveBacked` (a partial page asked for leaves later grants unmapped), `Stage2.PlacementIsExact` (a descriptor
that starts inside a 2 MB block and leaves it is compiled wrongly), `Breakpoints.WordComesBack` (a word of zero is
lost), `Breakpoints.StepOverExact` and `Breakpoints.SkipsExactly` (adjacent points, or two types at one address, skip
an instruction), `Enables.SharedFollowsLast` (a host interrupt mapped by two guests follows the last change),
`GdbPacket.RoundTripExact` (payloads the stub does not escape), `GdbPacket.ChecksumChecked` (a checksum character that
is no digit counts as minus one and may be taken), `IrqChain.Table.RequestAndFree` (freeing a device registered twice
removes the earlier action) and `Context.Cpu.GuestMove` (the copy of a guest given to the monitor takes one register
from the wrong place).

## How the model is built

- `Machine` holds words, bytes and pages; a 32-bit wrap-around is written out where it matters.
- The heap counts headers in units of 8 bytes and the break in bytes. The anchor `freep_base` is assumed to lie below
  the heap, as the platforms' memory maps place it. A request that has to grow the heap is required to wrap neither
  its byte count nor the break, which is the exact condition of `HypHeap.GrowthInside`.
- A translation descriptor is the record of its bit fields; assigning the masked address bits is assigning `base`.
- Vgic and distributor registers are 32-bit words; `Word` relates the C bit operations on them to sets of bit numbers,
  and `Lanes` does so for reads and writes of a byte or halfword through a pointer into a little-endian word. `ELSR`
  and `EISR` are what the hardware derives from the list registers (section 5.3 of ARM IHI 0048). The build modelled is
  the one without `_SMP_`, with at most 32 list registers, where hardware interrupts are simulated and every register
  asks for maintenance at its end.
- The tables of one guest in `vgic.c` form one record, `GuestRows.Guest`. The queue has the 128 rows that are scanned;
  the spare row after them is never used.
- `va_to_pa` is an abstract one-to-one translation in which consecutive words stay consecutive. Addresses are
  unbounded. Points are set at non-zero addresses.
- Guests are numbered from 0 and there are at least two; every quantum is at least one tick. The monitor's and the
  target's numbers, fixed in the source, are parameters.
- Interleavings of the spin lock are steps of a state machine; a store clears the other processors' monitors, and a
  processor may lose its own at any time (section A3.4 of ARM DDI 0406C).
- Memory barriers, cache and TLB maintenance, timers and interrupt lines are not part of this model.

## Model

| member | source | states |
|---|---|---|
| FreeList.RingUnfit | hypervisor/hardware/arm32ve/memory_hw.c:540-558 | a search that has gone once round the ring without a fit has seen every free block, so there is no fit |
| FreeList.NextFitIs | hypervisor/hardware/arm32ve/memory_hw.c:540-558 | the block found is big enough, and no node met before it on the way round the ring is |
| FreeList.CarveCanonical | hypervisor/hardware/arm32ve/memory_hw.c:541-549 | taking units off the tail of a block keeps the list address-ordered and coalesced |
| FreeList.CarveCovers | hypervisor/hardware/arm32ve/memory_hw.c:541-549 | exactly the units taken stop being free |
| FreeList.ReleaseCanonical | hypervisor/hardware/arm32ve/memory_hw.c:477-486 | putting a block back, with either join, both or none, keeps the list address-ordered and coalesced |
| FreeList.ReleaseCoversAll | hypervisor/hardware/arm32ve/memory_hw.c:477-486 | exactly the released units become free |
| FreeList.ReleasedFits | hypervisor/hardware/arm32ve/memory_hw.c:512-513 | after a release some free block holds the whole released block |
| FreeList.CanonicalIsUnique | hypervisor/hardware/arm32ve/memory_hw.c:469-488 | the list is determined by the set of free units: it is their unique maximal-interval form |
| FreeList.CarveThenRelease | hypervisor/hardware/arm32ve/memory_hw.c:469-558 | giving back the units just carved off restores the very same list, whichever block they came from |
| HeapBreak.WholePageRun | hypervisor/hardware/arm32ve/memory_hw.c:434-457 | in whole pages without a 32-bit wrap, the break is the start plus the bytes asked for, and the mapped end follows it to the heap's end |
| HeapBreak.GrantsExactlyWhileFitting | hypervisor/hardware/arm32ve/memory_hw.c:443-456 | in such a run a call succeeds exactly while the total still fits below the end; once one fails, all later ones do |
| HeapBreak.GrantedExactly | hypervisor/hardware/arm32ve/memory_hw.c:443-456 | without a wrap, an increment succeeds exactly when it is whole pages and fits; a failing one takes every remaining page |
| HeapBreak.GrantInsideHeap | hypervisor/hardware/arm32ve/memory_hw.c:442-456 | what is granted lies inside the heap exactly when the break does not wrap 32 bits |
| HeapBreak.RunBackedExactly | hypervisor/hardware/arm32ve/memory_hw.c:434-457 | in a run without a wrap from a break in step, a granted block has all its pages valid exactly when every earlier increment was whole pages |
| HeapBreak.BackedExactly | hypervisor/hardware/arm32ve/memory_hw.c:442-455 | a granted increment has every page valid while all increments before were whole pages, and not one page valid afterwards |
| HeapBreak.WrapOverrunsHeap | hypervisor/hardware/arm32ve/memory_hw.c:442-456 | a request whose break wraps is granted and overruns the heap |
| HeapBreak.OddRequestBurnsHeap | hypervisor/hardware/arm32ve/memory_hw.c:443-456 | a refused request of 8200 bytes takes all the pages; the next request of 8192 is granted with no page of it mapped, nor any of the heap |
| HeapPages.L3InBounds | hypervisor/hardware/arm32ve/memory_hw.c:363-380 | the bound check never refuses pages of a heap that lies in one second-level table, and the entry is the page's |
| HeapPages.CounterZero | hypervisor/hardware/arm32ve/memory_hw.c:445-453 | the wrapping byte counter of the loop reaches zero only when exactly the bytes needed were taken |
| HeapPages.Pages.constructor | hypervisor/hardware/arm32ve/memory_hw.c:329-335 | break and mapped end start at the heap's start, in step |
| HeapPages.Pages.HostMemoryMap | hypervisor/hardware/arm32ve/memory_hw.c:415-423 | marks valid exactly the pages given |
| HeapPages.Pages.TakePages | hypervisor/hardware/arm32ve/memory_hw.c:445-453 | takes exactly the pages needed, or all that are left when they are too few or the bytes are not whole pages |
| HeapPages.Pages.Extend | hypervisor/hardware/arm32ve/memory_hw.c:442-455 | the pages that a break past the mapped end gains become valid, exactly when they are whole pages of the heap |
| HeapPages.Pages.Sbrk | hypervisor/hardware/arm32ve/memory_hw.c:434-457 | returns the old break exactly when the increment is granted and moves the break either way; the pages marked valid are exactly those gained; in step, a grant of whole pages stays in step with every heap page up to the break valid |
| HeapPages.Pages.SbrkMany | hypervisor/hardware/arm32ve/memory_hw.c:434-457 | a run of calls without a wrap: results, break, mapped end and valid pages are those of the run on values |
| HypHeap.UnitsCover | hypervisor/hardware/arm32ve/memory_hw.c:532-534 | a size is refused for too few units exactly when it is 0 or wraps, and otherwise its units hold header and payload with less than a unit to spare |
| HypHeap.GrowthInside | hypervisor/hardware/arm32ve/memory_hw.c:501-509 | when the growth for a request is granted, the block it adds lies inside the heap exactly when neither the byte count nor the break wraps 32 bits |
| HypHeap.CountWraps | hypervisor/hardware/arm32ve/memory_hw.c:501-534 | the byte count wraps exactly for sizes 0xFFFFFFF1 to 0xFFFFFFF8: it is then 0, which is granted while the break is not past the mapped end, although at least 2^29 units are asked for |
| HypHeap.LiveBacked | hypervisor/hardware/arm32ve/memory_hw.c:434-558 | a live block has all its pages valid exactly when all its units are backed, and always as long as no growth was a partial page |
| HeapBacking.BacksGrow | hypervisor/hardware/arm32ve/memory_hw.c:434-457 | a growth adds its units to the backed ones exactly when it is granted and it and every growth before were whole pages; of what is granted later not one unit is |
| HypHeap.LinkedAfterRelease | hypervisor/hardware/arm32ve/memory_hw.c:477-486 | the two headers that a release writes thread exactly the released list through memory |
| HypHeap.SlotFound | hypervisor/hardware/arm32ve/memory_hw.c:473-476 | the node at which the search loop stops is the one the block belongs behind, wrap-around included |
| HypHeap.JoinTests | hypervisor/hardware/arm32ve/memory_hw.c:477-482 | comparing ends with the next link in ring order is the test for an adjacent neighbour, the anchor never joining |
| HypHeap.LinkedAfterUnlink | hypervisor/hardware/arm32ve/memory_hw.c:542-543 | unlinking an exact fit threads exactly the carved list |
| HypHeap.LinkedAfterSplit | hypervisor/hardware/arm32ve/memory_hw.c:544-549 | splitting off a tail threads exactly the carved list |
| HypHeap.TakeKeeps | hypervisor/hardware/arm32ve/memory_hw.c:541-551 | handing units out keeps all free and live blocks pairwise disjoint |
| HypHeap.PartitionAfterTake | hypervisor/hardware/arm32ve/memory_hw.c:541-551 | after handing units out, free and live blocks still cover exactly what was granted |
| HypHeap.FreeKeeps | hypervisor/hardware/arm32ve/memory_hw.c:469-488 | a release keeps the remaining live blocks and the free blocks pairwise disjoint |
| HypHeap.PartitionAfterFree | hypervisor/hardware/arm32ve/memory_hw.c:469-488 | after a release, free and live blocks still cover exactly what was granted |
| HypHeap.PartitionGrown | hypervisor/hardware/arm32ve/memory_hw.c:501-514 | growing adds exactly the new block's units to what is covered |
| HypHeap.Heap.constructor | hypervisor/hardware/arm32ve/memory_hw.c:329-335 | the heap before the first request meets the invariant with nothing granted |
| HypHeap.Heap.Locate | hypervisor/hardware/arm32ve/memory_hw.c:472-476 | the search loop of free terminates at the node the block belongs behind |
| HypHeap.Heap.HostMemoryFree | hypervisor/hardware/arm32ve/memory_hw.c:469-488 | the list becomes the old one with the block released, and freep stands before it |
| HypHeap.Heap.Free | hypervisor/hardware/arm32ve/memory_hw.c:1276-1279 | a live block given back: the invariant and what is backed stay, and exactly that block stops being live |
| HypHeap.Heap.Morecore | hypervisor/hardware/arm32ve/memory_hw.c:501-514 | grows by at least NALLOC units exactly when sbrk grants them, and otherwise changes nothing of the list; its units are backed exactly when no growth was a partial page |
| HypHeap.Heap.Walk | hypervisor/hardware/arm32ve/memory_hw.c:540-558 | one turn of the search finds the first fit after freep in ring order, or there is none |
| HypHeap.Heap.Take | hypervisor/hardware/arm32ve/memory_hw.c:541-551 | units cut from the tail of the block found become live and were not live before |
| HypHeap.Heap.Serve | hypervisor/hardware/arm32ve/memory_hw.c:540-551 | served from the list exactly when some block fits |
| HypHeap.Heap.GrowAndServe | hypervisor/hardware/arm32ve/memory_hw.c:552-558 | after a full turn without a fit the heap grows at most once, and the request succeeds exactly when it grew |
| HypHeap.Heap.Fetch | hypervisor/hardware/arm32ve/memory_hw.c:535-558 | of at least one unit: the next fit of the list, or after one growth of the grown list |
| HypHeap.Heap.HostMemoryMalloc | hypervisor/hardware/arm32ve/memory_hw.c:528-558 | terminates with at most one growth; the result is the tail of the next fit in the list, or in the grown list, and a failure leaves list and live blocks as they were; which units lie in valid pages stays known |
| HypHeap.Heap.Alloc | hypervisor/hardware/arm32ve/memory_hw.c:1271-1274 | in numbers: a request takes its bytes rounded up to units of 8 and one unit more, off the tail of the first fit; with no fit the break moves by 0x2000 bytes up to 1024 units and by 8 bytes a unit above, which from a break in step succeeds exactly when it is pages of 0x1000 bytes that fit, and then exactly those units are granted |
| HypHeap.Heap.MallocThenFree | hypervisor/hardware/arm32ve/memory_hw.c:528-558 | a request served from the list and given straight back leaves list and live blocks as they were |
| Stage2.Ttbl3Map | hypervisor/hardware/arm32ve/memory_hw.c:577-592 | writes exactly the page descriptors of consecutive pages, nothing else in the array |
| Stage2.MapBlocks | hypervisor/hardware/arm32ve/memory_hw.c:722-734 | maps whole blocks as consecutive pages and enables exactly their tables |
| Stage2.Ttbl2Map | hypervisor/hardware/arm32ve/memory_hw.c:687-746 | head, blocks and tail together map the descriptor's whole pages, sizes rounded down |
| Stage2.MappedPage | hypervisor/hardware/arm32ve/memory_hw.c:687-746 | for a well-placed descriptor, a page's entry is rewritten exactly when it is covered, with its own output address |
| Stage2.MappedBlock | hypervisor/hardware/arm32ve/memory_hw.c:705-744 | a block's table is enabled whenever one of its pages is mapped, and never otherwise changed |
| Stage2.Ttbl2InitEntries | hypervisor/hardware/arm32ve/memory_hw.c:757-771 | every second-level entry points at its own third-level table, invalid, and every page is invalid |
| Stage2.Ttbl2Unmap | hypervisor/hardware/arm32ve/memory_hw.c:641-661 | exactly the pages of the range, counted from the start of its first block, stop being reachable; of a descriptor only the valid bit changes |
| Stage2.UnmappedPage | hypervisor/hardware/arm32ve/memory_hw.c:641-661 | a page of a region is reachable after unmapping exactly when it was and is not in the range |
| Stage2.InitTtbl2 | hypervisor/hardware/arm32ve/memory_hw.c:783-800 | a region's tables are the cleared ones with the list's descriptors mapped in order |
| Stage2.FoundIsLast | hypervisor/hardware/arm32ve/memory_hw.c:794-798 | the meaning of a list at a page is its last covering descriptor |
| Stage2.TargetIsOffset | hypervisor/hardware/arm32ve/memory_hw.c:588-591 | for aligned descriptors the output is the descriptor's pa plus the distance from its va |
| Stage2.BuiltOk | hypervisor/hardware/arm32ve/memory_hw.c:783-800 | after any list of well-placed descriptors every page's entry and table link are as the list says |
| Stage2.BuiltElsewhere | hypervisor/hardware/arm32ve/memory_hw.c:283-294 | compiling a region writes only that region's tables in the flat array |
| Stage2.LinkBase | hypervisor/hardware/arm32ve/libhw/lpae.c:131-138 | a table descriptor configured with a table's address holds that table's page frame |
| Stage2.WalkIsMeaning | hypervisor/hardware/arm32ve/memory_hw.c:811-828 | walking three levels at any page and byte gives what the list means, address, memory type and rights, or a fault if nothing covers it |
| Stage2.InitTtbl | hypervisor/hardware/arm32ve/memory_hw.c:811-828 | walking the table at any page of a listed region gives what its list says, a covered page readable, writable, executable, not shareable and with its access flag set; a region without a list keeps its first-level entry, and faults if that was invalid |
| Stage2.PlacementIsExact | hypervisor/hardware/arm32ve/memory_hw.c:705-720 | a descriptor inside its region is compiled correctly at every page exactly when it starts a 2 MB block or stays inside one |
| Word.LowestBit | hypervisor/hardware/arm32ve/libhw/vgic.c:275 | slot & -slot keeps just the lowest set bit |
| Word.OrIsUnion | hypervisor/hardware/arm32ve/vdev/vdev_gicd.c:282 | or-ing words unites their bits |
| Word.AndNotIsDifference | hypervisor/hardware/arm32ve/vdev/vdev_gicd.c:294 | and-not removes exactly the other word's bits |
| Word.XorIsSymmetricDifference | hypervisor/hardware/arm32ve/vdev/vdev_gicd.c:227 | exclusive or keeps exactly the bits that differ |
| Word.FirstBit | hypervisor/hardware/arm32ve/libhw/vgic.c:275-276 | 31 - clz(slot & -slot) is the lowest bit |
| Word.TakeLast | hypervisor/hardware/arm32ve/libhw/vgic.c:421-422 | 31 - clz is the highest bit, and clearing it removes just that one |
| Lanes.Load | hypervisor/hardware/arm32ve/vdev/vdev_gicd.c:330-337 | reading a byte or halfword of a word through a pointer yields exactly the bits of its lane |
| Lanes.Store | hypervisor/hardware/arm32ve/vdev/vdev_gicd.c:304-320 | writing one puts the value's low bits in its lane and leaves the rest of the word |
| Lanes.OrInto | hypervisor/hardware/arm32ve/vdev/vdev_gicd.c:304-307 | or-ing into a byte or halfword sets exactly the value's bits in its lane of the word |
| Lanes.ClearIn | hypervisor/hardware/arm32ve/vdev/vdev_gicd.c:317-320 | and-not into a byte or halfword clears exactly the value's bits in its lane of the word |
| ListRegister.ComposeDecodes | hypervisor/hardware/arm32ve/libhw/vgic.c:512-521 | the register word decodes back to virtual number, state, priority, source and maintenance bit |
| ListRegister.GuestMoves | hypervisor/hardware/arm32ve/libhw/vgic.c:410-434 | acknowledging and ending an interrupt move only its state, so maintenance still knows the register |
| ListRegister.FreeSlot | hypervisor/hardware/arm32ve/libhw/vgic.c:264-283 | the lowest register that is empty, or none |
| VirqQueue.PlacedCoherent | hypervisor/hardware/arm32ve/libhw/vgic.c:512-526 | filling an empty register keeps registers and slot tables in agreement and presents the interrupt |
| VirqQueue.PlacedOwes | hypervisor/hardware/arm32ve/libhw/vgic.c:235-250 | moving a queued interrupt into a register changes what the guest owes by nothing |
| VirqQueue.FlushKeeps | hypervisor/hardware/arm32ve/libhw/vgic.c:226-258 | a flush keeps agreement and the physical interrupts owed |
| VirqQueue.FlushMoves | hypervisor/hardware/arm32ve/libhw/vgic.c:226-258 | each row either stays as it was or went to exactly one register that was empty, with its words and table rows; every other register is untouched |
| VirqQueue.FlushInOrder | hypervisor/hardware/arm32ve/libhw/vgic.c:232-253 | a prefix of the valid rows is moved, filling registers in ascending order |
| VirqQueue.FlushExhausts | hypervisor/hardware/arm32ve/libhw/vgic.c:246-247 | a row is left waiting only when no register is empty |
| VirqQueue.FlushDelivers | hypervisor/hardware/arm32ve/libhw/vgic.c:226-258 | a flush by what it leaves: where each row went, which registers stayed, in which order, and why a row waits |
| VirqQueue.MaintainedKeeps | hypervisor/hardware/arm32ve/libhw/vgic.c:420-434 | maintenance keeps registers and tables in agreement |
| VirqQueue.NothingPending | hypervisor/hardware/arm32ve/libhw/vgic.c:420-434 | after maintenance no register waits for it, and a register is empty exactly when it was inactive |
| VirqQueue.MaintainedCleans | hypervisor/hardware/arm32ve/libhw/vgic.c:416-434 | maintenance clears exactly the ended registers with their table rows and keeps every other |
| VirqQueue.EndsDescend | hypervisor/hardware/arm32ve/libhw/vgic.c:416-434 | the deactivations are those of the ended registers with a physical interrupt, each once, from the highest down |
| VirqQueue.EndsOwes | hypervisor/hardware/arm32ve/libhw/vgic.c:425-433 | what maintenance deactivates is exactly what the guest owed and no longer owes |
| VirqQueue.EnqueueOwes | hypervisor/hardware/arm32ve/libhw/vgic.c:203-212 | queueing adds exactly the new interrupt to what the guest owes |
| VirqQueue.InjectOwes | hypervisor/hardware/arm32ve/libhw/vgic.c:183-198 | injecting adds exactly the new interrupt to what the guest owes |
| VirqQueue.GuestKeeps | hypervisor/hardware/arm32ve/libhw/vgic.c:410-434 | a guest's acknowledgement or end keeps agreement, and an end asks for maintenance |
| GuestRows.InjectedKeeps | hypervisor/hardware/arm32ve/libhw/vgic.c:181-198 | an injection for the running guest, accepted or not, keeps the ledger of all guests |
| GuestRows.EnqueueKeeps | hypervisor/hardware/arm32ve/libhw/vgic.c:199-212 | queueing for another guest keeps the ledger |
| GuestRows.FlushConsistent | hypervisor/hardware/arm32ve/libhw/vgic.c:226-258 | a flush keeps the ledger |
| GuestRows.MaintenanceKeeps | hypervisor/hardware/arm32ve/libhw/vgic.c:410-434 | maintenance keeps the ledger, settling exactly the ended interrupts |
| GuestRows.SwitchKeeps | hypervisor/hardware/arm32ve/libhw/vgic.c:653-688 | loading another guest's registers keeps the ledger |
| GuestRows.OutstandingIsHeld | hypervisor/hardware/arm32ve/libhw/vgic.c:169-258 | a physical interrupt awaits deactivation exactly while some guest holds it, and none is deactivated more often than accepted |
| GuestRows.SpreadStep | hypervisor/interrupt.c:142-153 | offering an interrupt to one guest more leaves the others as they were |
| GuestRows.InjectedDelivers | hypervisor/hardware/arm32ve/libhw/vgic.c:169-197 | the lowest empty register becomes, bit by bit, the pending interrupt with its number, priority, source and maintenance bit, and its table rows remember it; without one nothing changes |
| GuestRows.SwitchedExchanges | hypervisor/hardware/arm32ve/libhw/vgic.c:653-688 | a switch by what it leaves: the guest that stops has the live registers in its status, the next one its own back with its queue flushed, and no other guest's rows change |
| GuestRows.FreshConsistent | hypervisor/hardware/arm32ve/libhw/vgic.c:102-111 | the initial tables meet the invariant |
| Vgic.FindFreeSlot | hypervisor/hardware/arm32ve/libhw/vgic.c:264-283 | returns the lowest empty register of ELSR, or not-found |
| Vgic.IsFreeSlot | hypervisor/hardware/arm32ve/libhw/vgic.c:293-306 | returns the slot asked for if empty, else another empty one, else not-found |
| Vgic.SlotOfVirq | hypervisor/hardware/arm32ve/libhw/vgic.c:147-162 | returns the first slot remembering the virtual number |
| Vgic.FirstFreeRow | hypervisor/hardware/arm32ve/libhw/vgic.c:203-211 | returns the first invalid queue row |
| Vgic.Interface.constructor | hypervisor/hardware/arm32ve/libhw/vgic.c:102-111 | starts with the invariant and an empty ledger |
| Vgic.Interface.InjectVirq | hypervisor/hardware/arm32ve/libhw/vgic.c:505-531 | writes the composed word into an empty register, never an occupied one |
| Vgic.Interface.InjectVirqSw | hypervisor/hardware/arm32ve/libhw/vgic.c:536-569 | the lowest empty register gets a software interrupt that asks for maintenance |
| Vgic.Interface.Present | hypervisor/hardware/arm32ve/libhw/vgic.c:182-197 | register and both table rows are written together, or nothing is |
| Vgic.Interface.FlushVirqs | hypervisor/hardware/arm32ve/libhw/vgic.c:226-258 | the loop computes the flush of the guest's queue |
| Vgic.Interface.FlushRunning | hypervisor/hardware/arm32ve/libhw/vgic.c:226-258 | flushing the running guest's queue keeps the invariant |
| Vgic.Interface.SlotCheck | hypervisor/hardware/arm32ve/libhw/vgic.c:690-709 | flushes the running guest's queue exactly when the processor's number is that guest's and a slot check is asked for; otherwise refused with nothing changed |
| Vgic.Interface.InjectCurrent | hypervisor/hardware/arm32ve/libhw/vgic.c:181-198 | busy exactly when no register is empty; the ledger grows by the interrupt accepted |
| Vgic.Interface.InjectOther | hypervisor/hardware/arm32ve/libhw/vgic.c:199-219 | refused exactly when a slot holds the number already or the queue is full; otherwise the first free row holds it |
| Vgic.Interface.VirqInject | hypervisor/hardware/arm32ve/libhw/vgic.c:169-225 | for the running guest the lowest empty register holds number, pending state, priority and source bit by bit and the tables remember it, or busy with nothing changed; for another guest the first invalid queue row holds the interrupt, refused exactly for a number in a slot or a full queue; notice for a slot check exactly for a queued software number |
| Vgic.Interface.InjectEnabled | hypervisor/interrupt.c:142-153 | a physical interrupt goes to each guest that has it enabled, into its lowest empty register if it runs and into its queue if not, and to no other guest |
| Vgic.Interface.EndAll | hypervisor/hardware/arm32ve/libhw/vgic.c:415-434 | the loop cleans every ended register from the highest down and lists the deactivations in that order |
| Vgic.Interface.MaintenanceIsr | hypervisor/hardware/arm32ve/libhw/vgic.c:410-455 | clears exactly the ended registers with their table rows, deactivates exactly their interrupts, each once, and keeps the invariant |
| Vgic.Interface.SaveStatus | hypervisor/hardware/arm32ve/libhw/vgic.c:653-665 | the status holds the live registers, and the interface is disabled |
| Vgic.Interface.RestoreStatus | hypervisor/hardware/arm32ve/libhw/vgic.c:667-688 | the live registers are the status's, flushed and enabled |
| Vgic.Interface.Switch | hypervisor/vcpu.c:356-379 | save then restore: the guest that leaves keeps the live registers in its status; the next has its own back, its queue flushed into the empty ones and bit 0 of GICH_HCR set; all other rows are kept |
| Vgic.Interface.GuestEoi | hypervisor/hardware/arm32ve/libhw/vgic.c:410-434 | an ended interrupt is pending for maintenance and nothing else changes |
| VgicRuns.StepSeen | hypervisor/hardware/arm32ve/libhw/vgic.c:169-258 | one event changes what each guest sees exactly as that guest by itself experiences it |
| VgicRuns.RunIsTransparent | hypervisor/hardware/arm32ve/libhw/vgic.c:653-688 | guests do not see one another: in every run a guest's registers, tables, queue and control registers, GICH_HCR included, are what its own time on the processor and the interrupts injected for it make them |
| VgicRuns.StepBooked | hypervisor/hardware/arm32ve/libhw/vgic.c:169-258 | every event keeps the ledger, maintenance alone settling |
| VgicRuns.RunIsBooked | hypervisor/hardware/arm32ve/libhw/vgic.c:169-455 | in every run what was accepted is what was deactivated and what guests still owe |
| VgicRuns.RunSettlesOnce | hypervisor/hardware/arm32ve/libhw/vgic.c:169-455 | no physical interrupt is deactivated more often than accepted, and one awaits deactivation exactly while some guest holds it |
| VgicRuns.EndedSince | hypervisor/hardware/arm32ve/libhw/vgic.c:410-434 | a register found ended was ended by its own guest during the run and has stayed so since, or was so from the start |
| VgicRuns.SettledAfterEoi | hypervisor/hardware/arm32ve/libhw/vgic.c:410-434 | only at its end: every interrupt that maintenance deactivates in a run was ended before by that very guest, running, in the register it is taken from, which stayed ended until then |
| VgicRuns.EndsApart | hypervisor/hardware/arm32ve/libhw/vgic.c:410-434 | each end answers for one deactivation: the end behind a second deactivation out of a register comes after the first deactivation |
| VgicRuns.Perform | hypervisor/hardware/arm32ve/libhw/vgic.c:169-688 | the interface's routines do to its state exactly what the events of a run say |
| Enables.FollowOther | hypervisor/hardware/arm32ve/vdev/vdev_gicd.c:228-251 | changed bits leave the host interrupts of all others alone |
| Enables.FollowBit | hypervisor/hardware/arm32ve/vdev/vdev_gicd.c:228-251 | a changed bit leaves its host interrupt as the bit now is |
| Enables.SyncedStep | hypervisor/hardware/arm32ve/vdev/vdev_gicd.c:218-253 | following a changed word keeps every unshared host interrupt equal to its guest's virtual enable bit |
| Enables.WordIsSlice | hypervisor/hardware/arm32ve/vdev/vdev_gicd.c:278-354 | a register word that gained, or lost, the bits of a lane enables, or disables, exactly the interrupts that the access covers, eight to a byte of the bank |
| Enables.FetchedIsSlice | hypervisor/hardware/arm32ve/vdev/vdev_gicd.c:278-354 | the value of a lane shows exactly which of the covered interrupts are enabled |
| Enables.SharedFollowsLast | hypervisor/hardware/arm32ve/vdev/vdev_gicd.c:229-245 | a host interrupt mapped by two guests follows the last change: the other guest is in step exactly when its bit agrees |
| Enables.HostFollowed | hypervisor/hardware/arm32ve/vdev/vdev_gicd.c:218-253 | a rewritten word leaves host interrupts alone none of whose virtual interrupts changed; one whose only virtual interrupt changed is enabled, if it has a line, or disabled as that was |
| Enables.MarksGained | hypervisor/hardware/arm32ve/vdev/vdev_gicd.c:236-240 | the guest's marks gain exactly the host interrupts of the virtual interrupts switched on |
| Enables.SwitchedIs | hypervisor/hardware/arm32ve/vdev/vdev_gicd.c:266-356 | an access switches exactly the interrupts whose byte, halfword or word of the bank it covers and whose bit is set in the value |
| Gicd.Distributor.ChangedBit | hypervisor/hardware/arm32ve/vdev/vdev_gicd.c:229-250 | one changed bit enables and marks, or disables, its mapped host interrupt |
| Gicd.Distributor.ChangedIstatus | hypervisor/hardware/arm32ve/vdev/vdev_gicd.c:218-253 | the loop over the exclusive or of the words treats each changed bit exactly once, from the highest down, and remembers the word |
| Gicd.BankNumbers | hypervisor/hardware/arm32ve/vdev/vdev_gicd.c:279-348 | the two banks lie at offsets 0x100 to 0x113 and 0x180 to 0x193 |
| Gicd.Distributor.HandleEnable | hypervisor/hardware/arm32ve/vdev/vdev_gicd.c:255-356 | every access width switches or shows exactly the interrupts it covers; the host and the guest's marks go along: the marks gain exactly the host interrupts of what was switched on, lose none, and other guests' marks are untouched |
| RoundRobin.ChargeAdvances | hypervisor/vcpu.c:153-189 | a scheduling event moves one place around the circle of ticks |
| RoundRobin.SamePosition | hypervisor/vcpu.c:153-189 | a place on the circle is one turn |
| RoundRobin.RestOfQuantum | hypervisor/vcpu.c:174-187 | the rest of a quantum is charged to its guest, then the next guest has a full one |
| RoundRobin.WindowIsFair | hypervisor/vcpu.c:153-189 | any window of as many events as ticks in a round charges each guest exactly its quantum and ends where it began |
| RoundRobin.PlaceAfter | hypervisor/vcpu.c:153-189 | after n events the turn is n places further around, in cyclic order |
| Scheduler.Cpu.NextVmid | hypervisor/vcpu.c:153-189 | charges a 32-bit tick and names the guest to run next |
| Scheduler.Cpu.DetermNext | hypervisor/vcpu.c:248-266 | manual selection overrides and charges nothing |
| Scheduler.Cpu.SwitchTo | hypervisor/vcpu.c:209-229 | a request is recorded unless an earlier one was locked |
| Scheduler.Cpu.PerformSwitch | hypervisor/vcpu.c:61-100 | at trap exit a guest switched to starts with a full quantum, and the lock opens |
| Scheduler.Cpu.Schedule | hypervisor/vcpu.c:268-288 | a tick or yield is one charge of the round-robin order; under manual selection the selected guest runs |
| Scheduler.Cpu.BreakGuest | hypervisor/monitor.c:124-142 | the monitor's guest is selected and runs, its tick within its quantum |
| Scheduler.Cpu.RunGuest | hypervisor/monitor.c:144-150 | the target runs with its tick within its quantum and scheduling is automatic again |
| Scheduler.Cpu.OtherTrap | hypervisor/vcpu.c:61-100 | a trap in which nothing asked for a switch leaves the running guest its turn and its ticks |
| Scheduler.Cpu.TrapMany | hypervisor/vcpu.c:61-288 | in a run of traps, those with a scheduling event are that many charges and the others none; a whole round of them returns to the same turn |
| Context.RunIsTransparent | hypervisor/vcpu.c:356-379 | in every run of steps and switches each guest's registers are those of its own steps alone |
| Context.CopyRegs | hypervisor/hardware/arm32ve/guest_hw.c:17-26 | the trap frame is copied whole |
| Context.Cpu.SaveBanked | hypervisor/hardware/arm32ve/guest_hw.c:54-102 | all banked registers are saved |
| Context.Cpu.RestoreBanked | hypervisor/hardware/arm32ve/guest_hw.c:104-152 | all banked registers are restored |
| Context.Cpu.RestoreCops | hypervisor/hardware/arm32ve/guest_hw.c:196-203 | all five system registers are restored |
| Context.Cpu.Save | hypervisor/hardware/arm32ve/guest_hw.c:242-263 | the vcpu holds the live registers |
| Context.Cpu.Restore | hypervisor/hardware/arm32ve/guest_hw.c:265-288 | the live registers are the vcpu's |
| Context.Cpu.SaveAndRestore | hypervisor/vcpu.c:356-379 | a switch is invisible to every guest |
| Context.CopyBanked | hypervisor/hardware/arm32ve/guest_hw.c:153-176 | register by register, every banked register is copied, but lr_und takes sp_und |
| Context.Cpu.GuestMove | hypervisor/hardware/arm32ve/guest_hw.c:364-369 | the monitor's copy of a waiting guest shows the registers of that guest's own steps exactly when its lr_und equals its sp_und; system registers are not copied |
| Breakpoints.Stored | hypervisor/monitor.c:23-48 | what storing does to every lookup: known address, free row and full table |
| Breakpoints.Cleaned | hypervisor/monitor.c:61-77 | what cleaning does to every lookup |
| Breakpoints.InsertKeeps | hypervisor/monitor.c:152-178 | setting a point keeps the guest's own words and the retrap order |
| Breakpoints.InsertSets | hypervisor/monitor.c:152-178 | a new point has the word saved with that type alone and 0xe14fff7c in its place; a known address only gains the type; without a free row nothing happens; every other lookup and word is kept |
| Breakpoints.CleanGuestCleans | hypervisor/monitor.c:180-203 | exactly the types named go from the point and the retrap from the next word; a word is put back exactly when the last type of its address went |
| Breakpoints.TrapTakes | hypervisor/hardware/arm32ve/vdev/vdev_monitor/vdev_hvc_monitor.c:87-112 | each kind of trap in words and types: restore and arm the next word, drop the retrap and re-arm the word before, rewind, or go on |
| Breakpoints.CleanGuestKeeps | hypervisor/monitor.c:180-203 | cleaning a point and the retrap after it keeps them |
| Breakpoints.TrapKeeps | hypervisor/hardware/arm32ve/vdev/vdev_monitor/vdev_hvc_monitor.c:87-112 | every trap keeps them |
| Breakpoints.CleanAllRestores | hypervisor/monitor.c:223-239 | cleaning everything empties the table |
| Breakpoints.RunKeeps | hypervisor/monitor.c:152-239 | under every interleaving memory with the saved words put back is constant, and a retrap stands only after a tracepoint |
| Breakpoints.RunThenCleanAll | hypervisor/monitor.c:223-239 | after any run, cleaning everything leaves the original memory |
| Breakpoints.WordComesBack | hypervisor/monitor.c:35-46 | a point's word comes back exactly when it was not zero |
| Breakpoints.FullCycle | hypervisor/hardware/arm32ve/vdev/vdev_monitor/vdev_hvc_monitor.c:16-86 | trap, own instruction, retrap: the point is re-armed, the next word and the table are as before, the pc is at the next word |
| Breakpoints.StepOverExact | hypervisor/hardware/arm32ve/vdev/vdev_monitor/vdev_hvc_monitor.c:63-110 | the cycle re-arms exactly when the next word has a lone armed retrap, or no point and a row is free; otherwise an armed neighbour loses its instruction |
| Breakpoints.SkipsExactly | hypervisor/hardware/arm32ve/vdev/vdev_monitor/vdev_hvc_monitor.c:87-112 | the trap of a planted HVC goes back to it exactly when its address has a single type; otherwise the guest goes on without its own instruction |
| Breakpoints.RunNeverSkips | hypervisor/hardware/arm32ve/vdev/vdev_monitor/vdev_hvc_monitor.c:87-112 | with one type per address and no adjacent points, in every run no trap skips an instruction, and unless it is a breakpoint the guest's own word is in place again |
| Monitor.Manager.constructor | hypervisor/monitor.c:18 | the empty table over the guest's own memory meets the invariant |
| Monitor.Manager.StoreInst | hypervisor/monitor.c:23-48 | the two search loops compute the store |
| Monitor.Manager.InstType | hypervisor/monitor.c:50-59 | the types of the first matching row, or none |
| Monitor.Manager.CleanInst | hypervisor/monitor.c:61-77 | the search loop computes the cleaning |
| Monitor.Manager.LoadInst | hypervisor/monitor.c:79-94 | the saved word of the first matching row, or 0 |
| Monitor.Manager.InsertPoint | hypervisor/monitor.c:152-178 | a new point leaves 0xe14fff7c at its address with the guest's own word saved under that type alone; a known one only gains the type; everything else is kept, and the invariant |
| Monitor.Manager.CleanGuestPoint | hypervisor/monitor.c:180-203 | exactly the types named go, and the retrap after the point; words come back exactly where the last type went; the invariant is kept |
| Monitor.Manager.CleanAllGuest | hypervisor/monitor.c:223-239 | the table is empty and memory is the original |
| Monitor.Manager.PreHandler | hypervisor/hardware/arm32ve/vdev/vdev_monitor/vdev_hvc_monitor.c:16-28 | the trapped word is put back if it is known |
| Monitor.Manager.TraceHandler | hypervisor/hardware/arm32ve/vdev/vdev_monitor/vdev_hvc_monitor.c:42-77 | the next word is remembered and armed if it was new |
| Monitor.Manager.RetrapHandler | hypervisor/hardware/arm32ve/vdev/vdev_monitor/vdev_hvc_monitor.c:79-86 | the retrap goes and the word before it is armed |
| Monitor.Manager.Write | hypervisor/hardware/arm32ve/vdev/vdev_monitor/vdev_hvc_monitor.c:87-112 | the dispatch on exact types does what each kind of trap does in words and types, and keeps the invariant |
| Spinlock.NextKeeps | common/include/smp.h:65-114 | every step keeps mutual exclusion and the meaning of the lock word |
| Spinlock.MutualExclusion | common/include/smp.h:65-114 | in every run of any number of CPUs at most one is between lock and unlock, and the word is nonzero exactly then |
| Spinlock.UndisturbedTry | common/include/smp.h:83-101 | a single undisturbed try succeeds exactly when the word was zero |
| Spinlock.LockNeverGivesUp | common/include/smp.h:65-82 | in every run a CPU in spin_lock stays in it until it has had the lock |
| Spinlock.TryEnds | common/include/smp.h:65-101 | entering spin_lock is entering to stay, and a single try ends with its conditional store |
| GdbPacket.PacketReceived | common/guest/loader/monitor/gdb_stub.c:129-155 | a packet of a plain payload shorter than the buffer is received as its payload |
| GdbPacket.ResyncAfterJunk | common/guest/loader/monitor/gdb_stub.c:161-197 | also after junk without an end mark or an escape, and the one answer is the acknowledgement |
| GdbPacket.RoundTripExact | common/guest/loader/monitor/gdb_stub.c:129-220 | sending and receiving is the identity exactly for payloads without reserved characters that are shorter than the buffer |
| GdbPacket.EscapeDecodes | common/guest/loader/monitor/gdb_stub.c:181-194 | an escaped character is received as itself exclusive-or 0x20 |
| GdbPacket.SumAppend | common/guest/loader/monitor/gdb_stub.c:129-147 | the sum is additive and that of one character its code |
| GdbPacket.ChecksumChecked | common/guest/loader/monitor/gdb_stub.c:198-217 | a packet with any two checksum characters is taken and acknowledged exactly when they are the two digits of its sum, or, 15 below a multiple of 16, the next digit and no digit at all; otherwise it is refused and the receiver hunts on |
| GdbPacket.Transmit | common/guest/loader/monitor/gdb_stub.c:133-148 | sends 0x24, the payload up to the NUL, 0x23 and the two lower-case digits of the sum modulo 256 |
| GdbPacket.PutPacket | common/guest/loader/monitor/gdb_stub.c:129-155 | transmits the packet again until an acknowledgement comes back, and not once more |
| GdbPacket.Receiver.ReadData | common/guest/loader/monitor/gdb_stub.c:170-196 | the data loop fills the buffer, never past its end, and leaves it at an end mark or full |
| GdbPacket.Receiver.ReadChecksum | common/guest/loader/monitor/gdb_stub.c:198-217 | acknowledges exactly a matching checksum |
| GdbPacket.Receiver.GetPacket | common/guest/loader/monitor/gdb_stub.c:161-220 | delivers what the receiver's state machine says of the line read, NUL-terminated, with its answers |
| GdbPacket.Exchange | common/guest/loader/monitor/gdb_stub.c:129-220 | a plain payload sent after junk is delivered unchanged and NUL-terminated, it alone is acknowledged, and one transmission was enough |
| Atags.ReadLe | common/guest/loader/linuxloader.c:23-26 | a word written little-endian reads back |
| Atags.CmdlineFits | common/guest/loader/linuxloader.c:132-134 | for every length the command line and its NUL lie inside their own tag, with at most a word to spare |
| Atags.TagParsed | common/guest/loader/linuxloader.c:23-95 | every tag parses back to its kind and all its words, and its size field is its length |
| Atags.ParsedIsWritten | common/guest/loader/linuxloader.c:23-95 | what parses as a tag without a string is that tag, its kind, size and words in memory |
| Atags.WalkIsList | common/guest/loader/linuxloader.c:18-20 | following the size fields reaches exactly the tags emitted, in order |
| Atags.ListedMore | common/guest/loader/linuxloader.c:114 | moving past a tag by its size keeps the list back to back |
| Atags.GuestListed | common/guest/loader/linuxloader.c:101-228 | the list as words in memory: sizes, tag numbers and arguments of core, revision, memory, ramdisk and command line, and two zero words at the end |
| Atags.Builder.Put | common/guest/loader/linuxloader.c:101-174 | a tag is appended and the tags before it are untouched |
| Atags.Builder.SetupCmdline | common/guest/loader/linuxloader.c:125-136 | a command line is appended with its NUL; an empty one makes no tag |
| Atags.Builder.SetupEnd | common/guest/loader/linuxloader.c:157-161 | after the end tag the walk gives back all the tags |
| Atags.SetupAtags | common/guest/loader/linuxloader.c:176-228 | the guest's list walks back as core, revision, memory, the initial ramdisk if there is one, and command line, and in memory it is those words at those addresses |
| IrqChain.LinkedAppend | platform-device/cortex_a15x2_arndale/guestos/ucos-ii/arch/arm/irq.c:150-160 | linking a block after the last one extends the chain |
| IrqChain.LinkedUnlink | platform-device/cortex_a15x2_arndale/guestos/ucos-ii/arch/arm/irq.c:210-220 | unlinking a block leaves the chain without it |
| IrqChain.PoolTake | platform-device/cortex_a15x2_arndale/guestos/ucos-ii/arch/arm/irq.c:174-187 | taking a block into a chain keeps every block in exactly one place |
| IrqChain.PoolGive | platform-device/cortex_a15x2_arndale/guestos/ucos-ii/arch/arm/irq.c:220-222 | giving a block back keeps every block in exactly one place |
| IrqChain.RequestThenFree | platform-device/cortex_a15x2_arndale/guestos/ucos-ii/arch/arm/irq.c:165-230 | freeing the device just registered leaves the same registrations in content and order exactly when every one from the device's first on equals the new one |
| IrqChain.FlagsJoin | platform-device/cortex_a15x2_arndale/guestos/ucos-ii/arch/arm/irq.c:232-243 | the flags joined are those of some registration |
| IrqChain.Table.SetupIrq | platform-device/cortex_a15x2_arndale/guestos/ucos-ii/arch/arm/irq.c:141-163 | the block goes last, or the number is refused and nothing changes |
| IrqChain.Table.RequestIrq | platform-device/cortex_a15x2_arndale/guestos/ucos-ii/arch/arm/irq.c:165-195 | registration order is kept; a refused number returns its block; other chains are unchanged |
| IrqChain.Table.FreeIrq | platform-device/cortex_a15x2_arndale/guestos/ucos-ii/arch/arm/irq.c:197-230 | exactly the first action of the device goes, and its block returns to the pool |
| IrqChain.Table.RequestAndFree | platform-device/cortex_a15x2_arndale/guestos/ucos-ii/arch/arm/irq.c:165-230 | every block is back in its place, chain and pool, exactly when the device had no registration before |
| IrqChain.Table.HandleEvent | platform-device/cortex_a15x2_arndale/guestos/ucos-ii/arch/arm/irq.c:232-243 | the handler of every registration is called once, in registration order, and the flags are exactly those of some registration |

## Left out

- `va_to_pa` itself: its second-level index is not masked, so the translation is an abstract map.
- The identity of the heap mapping: `host_memory_map` does not advance `phys`, so only the validity of pages is stated.
- HypHeap.Heap.Morecore: requires that neither the byte count of the growth nor the break wraps; a wrapping growth that is granted adds a block outside the heap, as `HypHeap.GrowthInside` says, and its headers would lie in memory that is not part of this model.
- HypHeap.Heap.GrowAndServe: requires the same of the growth it may ask for.
- HypHeap.Heap.Fetch: requires the same when no block of the list fits.
- HypHeap.Heap.HostMemoryMalloc: requires that a request that must grow the heap wraps neither the byte count (`HypHeap.CountWraps`: sizes 0xFFFFFFF1 to 0xFFFFFFF8) nor the break; what a wrapping one adds lies outside the heap, as `HypHeap.GrowthInside` says.
- HypHeap.Heap.Alloc: requires the same as `HypHeap.Heap.HostMemoryMalloc`, which it calls.
- Stage2.Ttbl2Unmap: stated for ranges inside one region, as its caller uses it.
- List registers 32 and up, whose maintenance loop clears the wrong slot row, and the `_SMP_` build with hardware list registers.
- Vgic.Interface.Present: two registers with the same virtual number, which the architecture leaves unpredictable, are not excluded, since only the queueing branch checks for one.
- The rows of the tables of `vgic.c`, `vdev_gicd.c`, `guest_hw.c` and the uC/OS-II chains are values held in fields: aliasing of rows is not captured.
- Gicd.Distributor.ChangedBit: of configuring an interrupt only the enable bit is modelled, not polarity, routing or priority.
- Distributor registers other than the two enable banks: partial or unimplemented handlers in the source.
- The launch of the first guest, which saves with no guest running.
- System registers that the switch does not save; the claim is about those it does.
- `monitor_write_memory`'s raw path, memory dumps and notifications to the monitor.
- Monitor.Manager.Write: the switch to the monitor's guest at a breakpoint is in `Scheduler.Cpu.BreakGuest`.
- OSMemGet and OSMemPut are an abstract pool that hands out the block returned last.
- The device registry and trap dispatch, timer wrappers, string helpers and drivers.
