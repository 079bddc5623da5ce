# Verified models of the jayphen_os kernel

Dafny models of the kernel's stateful components, each a class or array program in the
form of the C code, proved against a specification whose own properties are proved
beside it. `dafny verify dfyconfig.toml` checks everything.

* **Page allocator** - `PageMap` (page numbers and physical addresses), `PageRuns` (free
  lists as runs of pages), `AllocatorRuns` (the allocator as a state machine), `Allocator`
  (the linked list of header records inside the free pages).
* **OHCI driver** - `PeriodicSchedule` (the bit-reversed interrupt tree), `ControlTransfer`
  (the descriptor chain of a control request), `DoneQueue` (controller and interrupt handler
  as two parties that interleave freely), `ControlChain` (what both make of a chain that is built
  while earlier descriptors are still listed).
* **Terminal** - `FrameBuffer` (pixels), `TextGrid` (what a character does to the text),
  `Terminal` (the pixels always render the text).
* **ELF64 loader** - `ElfFile` (cursor reads), `ElfImage` (segments, size, image),
  `ElfLoader` (the code, and the two calls of `LoadElf`).
* **Keyboard input** - `EventQueue` (the ring read by timestamp), `Keyboard` (reports to
  events), `LineEditor` (the line, its buffer and its echo).
* **Decimal text** - `Decimal`. `Arithmetic` holds the facts about multiplication and division,
  `Options` the optional values.

## What the proofs found

* The allocator keeps its invariant unless the request is 2^64 - 1 pages, where adding the
  header page wraps to a run of zero pages (Allocator.c:82); `AllocatePages` says both. The page
  with the last index has no address, so a split that would leave only that page panics, and
  this is the only failure with enough memory (`SplitFailsOnlyAtTop`, `FirstSplitCanFail`). Runs live
  in index space, so a block is contiguous in memory exactly when no gap between regions lies inside
  it (`BlockContiguousIffNoGap`); a first request for two pages can return an address that belongs
  to no page (`AllocationMayCrossGap`).
* OHCI.c:1115 clears the HCCA done head, and OHCI.c:1054-1113 rebuilds the control descriptors, both
  without regard to the done lists. A submission loses a HID device, which is then silent whatever
  happens later, exactly when its descriptor waits in the HCCA or stands behind one of the rebuilt
  descriptors on the controller's list (`SubmitLosesIff`, `LostForGood`).
* After a submission the controller can come to a done list without end exactly when the endpoint is
  not halted, a rebuilt descriptor is on its list, and the first of them is not the dummy of the new
  chain (`SubmitTanglesIff`). When the chain is executed up to that descriptor and the list is handed over,
  the interrupt handler never finishes exactly when no device's descriptor stands before it
  (`TrappedIff`); otherwise the handler finishes, but goes by the first such device
  twice and reports its completion twice (`CircleReports`). The submissions that leave all lists in order are thus known exactly, and every
  run of them keeps the protocol's invariant (`SubmitInv`, `RunInv`).
* All four situations are reachable with a request of two descriptors (`SubmitCanLoseDevice`,
  `SubmitCanLoseBehindControl`, `SubmitCanTrapHandler`, `SubmitCanReportTwice`).
* OHCI.c:1112 writes the pointer bits of the control endpoint's HeadPointer only, and nothing clears
  its Halted bit: a new chain can be executed to its end exactly when no control descriptor has been
  retired with an error so far (`CanExecuteIff`, `HaltedIffFailed`).
* The setup stage is sent as DATA1, where USB 2.0 asks for DATA0 (OHCI.c:1067), and the data
  descriptors keep the `DataToggle` that earlier requests and the controller left in them
  (OHCI.c:1085-1091). `DataAlternatesIff` says exactly when the data stage alternates as it should;
  in a first request with data it does not (`FirstDataStageFails`).
* The ELF loader stores table entry i in slot i but uses the first slots (elfloader.c:218-239).
  It uses the PT_LOAD entries exactly when they come before all others; behind an ordinary PT_PHDR
  entry the one segment of a file is not loaded (`PhdrFirstLosesSegment`). The check of the magic
  stops at the end of the file but the cursor does not: it leaves the file exactly when the file ends
  inside the magic (`ReadMagic`, `TruncatedMagic`).
* In the line editor a backspace on a full line writes the buffer slot after the last character
  (Input.c:504). Every write stays inside a buffer of `Size` slots, which is what StartKernel.c:38
  passes, exactly when no backspace meets a full line (`WritesInsideIff`). A backspace leaves the
  character it removes in the buffer, and the shell reads up to the first zero, unless the line is
  empty: for a line shorter than the buffer it takes what was typed exactly when the line is empty or
  its last effective edit was not a backspace (`ShellSeesLineIff`, `ShellTakesErased`). As long as no
  write leaves the buffer, the shell's read stays inside it exactly when the line is shorter than the
  buffer (`TerminatedIff`).
* All presses of one keyboard report share a tick and a subscriber receives one event per tick, so a
  drained subscriber has seen every press exactly when no two share a tick (`AllDeliveredIff`); of
  two keys pressed in one report the first is never delivered (`TwoKeysLoseOne`).
* A tab cannot be erased by one backspace, so the echo theorem is about lines without tabs.

Assumptions about the hardware and the firmware: memory regions are page aligned, disjoint and
ascending; a header page is changed only by the allocator; the controller follows sections 4.2, 4.3.1
and 4.4 of the OpenHCI specification, release 1.0a; the font is an arbitrary table of bytes; input
events and tick counts are parameters.

## Model

| member | source | states |
|---|---|---|
| PageMap.PageAddressMonotone | system/kernel/Allocator.c:19-36 | over any ascending disjoint regions the address of a page grows by at least a page size per page number |
| PageMap.PageAddressInjective | system/kernel/Allocator.c:19-56 | different page numbers have different addresses, so index and address determine each other |
| PageMap.ContiguousIffNoGap | system/kernel/Allocator.c:27-35 | over any ascending layout two page numbers are as far apart in memory as in number if and only if every region boundary between them has no gap |
| PageMap.ContiguousFromStart | system/kernel/Allocator.c:27-35 | a page lies its number of pages after the start of the first region if and only if no gap is before it |
| PageRuns.CanonicalUnique | system/kernel/Allocator.c:121-162 | a sorted, disjoint, maximally coalesced list is determined by the set of pages it covers |
| PageRuns.ReleaseCanonical | system/kernel/Allocator.c:131-161 | freeing a block of pages that are not free keeps the list sorted and maximally coalesced |
| PageRuns.ReleasePages | system/kernel/Allocator.c:131-161 | freeing adds exactly the block's pages to the free pages |
| PageRuns.ReleaseByPosition | system/kernel/Allocator.c:133-161 | merging with the run before and then with the run after, at the block's place, is the same as inserting with coalescing |
| PageRuns.BestFitMeans | system/kernel/Allocator.c:91-97 | the run chosen is large enough, none that is large enough is smaller, and those before it are larger |
| PageRuns.CarveCanonical | system/kernel/Allocator.c:102-115 | taking pages from the front of a run keeps the list canonical, split or exact fit |
| PageRuns.CarvePages | system/kernel/Allocator.c:102-116 | exactly the first pages of the chosen run leave the free list |
| AllocatorRuns.AllocatedInv | system/kernel/Allocator.c:81-118 | an allocation keeps the partition of the page indices into free runs and live blocks, and its block is new |
| AllocatorRuns.FreedInv | system/kernel/Allocator.c:121-162 | a free keeps the partition |
| AllocatorRuns.RunInv | system/kernel/Allocator.c:58-162 | in every state of every sequence of calls the free list is canonical and free runs and live blocks, headers included, partition 0..TotalPages-1 |
| AllocatorRuns.PartitionAt | system/kernel/Allocator.c:81-162 | a page index is free if and only if it exists and no live block has it |
| AllocatorRuns.LiveDeterminesFree | system/kernel/Allocator.c:81-162 | the live blocks determine the free list run for run, whatever the history |
| AllocatorRuns.AllocateThenFree | system/kernel/Allocator.c:102-161 | freeing what was just allocated restores the exact previous state |
| AllocatorRuns.FreesCommute | system/kernel/Allocator.c:121-162 | two frees give the same state in either order |
| AllocatorRuns.FreeAllInAnyOrder | system/kernel/Allocator.c:76-162 | freeing all live blocks in any order leaves the single initial run |
| AllocatorRuns.SplitFailsOnlyAtTop | system/kernel/Allocator.c:20-23 | a split panics if and only if its remainder is the one page with the last index |
| AllocatorRuns.FirstSplitCanFail | system/kernel/Allocator.c:88-108 | a first request for all pages but the last finds its best fit and cannot split it |
| AllocatorRuns.ZeroLengthRunBreaksInv | system/kernel/Allocator.c:82-116 | the run of length zero that a wrapped request leaves breaks the invariant in every state |
| Allocator.BlockContiguousIffNoGap | system/kernel/Allocator.c:118 | the pages of a block are side by side in memory if and only if no gap between regions lies inside the block |
| Allocator.AllocationMayCrossGap | system/kernel/Allocator.c:98-118 | a layout and a first request, an exact fit, for which the returned address is not that of any page |
| Allocator.LiveBlocksDisjointInMemory | system/kernel/Allocator.c:81-118 | no page of a live block overlaps in memory a page outside the block |
| Allocator.PageAllocator.PageIndexToMemoryAddress | system/kernel/Allocator.c:19-36 | panics exactly for indices from TotalPages - 1 on; otherwise the address of page number index + 1, the addition wrapping; the walk stays in the table |
| Allocator.PageAllocator.MemoryAddressToPageIndex | system/kernel/Allocator.c:38-56 | any address inside page number n gives index n - 1 (2^64 - 1 for the hidden first page), the inverse of the conversion above |
| Allocator.PageAllocator.InitializeAllocator | system/kernel/Allocator.c:58-79 | one free run of all page indices, in memory too; panics exactly with fewer than three pages |
| Allocator.PageAllocator.FindBest | system/kernel/Allocator.c:84-95 | the pointer walk finds the first of the smallest sufficient runs and the link that leads to it, or none exactly if none suffices |
| Allocator.PageAllocator.Unlink | system/kernel/Allocator.c:102 | writing through the saved link takes one run off the chain and nothing else |
| Allocator.PageAllocator.InsertByAddress | system/kernel/Allocator.c:109-114 | insertion by address puts the remainder back at the place of the run it was cut from |
| Allocator.PageAllocator.AllocatePages | system/kernel/Allocator.c:81-118 | out of memory exactly if no run suffices; best fit; the exact panic condition; otherwise the list in memory is the carved list, the block is live and the page after its header is returned; a wrapped request empties the run and makes nothing live; the invariant holds afterwards if and only if the request did not wrap |
| Allocator.PageAllocator.JoinBoth | system/kernel/Allocator.c:139-161 | the in-place merges on both sides leave the list in memory equal to insertion with coalescing |
| Allocator.PageAllocator.FreePages | system/kernel/Allocator.c:121-162 | rejects an unaligned pointer; otherwise the list in memory is the old one with the block inserted and coalesced, and the invariant holds |
| PeriodicSchedule.RowsAreReversed | system/kernel/Drivers/USB/OHCI.c:677-687 | the row indices are the low four, three, two and one bits of the frame number in reverse |
| PeriodicSchedule.PathIsPeriod | system/kernel/Drivers/USB/OHCI.c:676-691 | the last placeholder of each row is on the path of frame i exactly when i is 15 mod 16, 7 mod 8, 3 mod 4, 1 mod 2 |
| PeriodicSchedule.RowsAreAPath | system/kernel/Drivers/USB/OHCI.c:677-695 | the five row indices of a frame are a path to the root of one fixed binary tree |
| PeriodicSchedule.RowsCover | system/kernel/Drivers/USB/OHCI.c:676-696 | every placeholder is on the path of some frame, so the loop links all of them |
| PeriodicSchedule.Schedule.BuildTree | system/kernel/Drivers/USB/OHCI.c:676-699 | the loop builds that tree and the 32 list heads, leaves the five class indices, and skips every placeholder |
| PeriodicSchedule.Schedule.HangEndpoint | system/kernel/Drivers/USB/OHCI.c:930-949 | a new endpoint goes right behind the placeholder of its class and every list stays well formed |
| PeriodicSchedule.Schedule.ServiceFrame | system/kernel/Drivers/USB/OHCI.c:676-696 | following NextED from a frame's head ends at 0 and visits exactly the frame's list |
| PeriodicSchedule.Schedule.MetIffOnRoute | system/kernel/Drivers/USB/OHCI.c:948-949 | an endpoint is met from a placeholder if and only if the one it hangs behind is on the way to the root |
| PeriodicSchedule.Schedule.ServicedIff | system/kernel/Drivers/USB/OHCI.c:676-696 | after any insertions an endpoint of class P is serviced in frame n if and only if n mod P is P - 1 |
| PeriodicSchedule.Schedule.TailDistinct | system/kernel/Drivers/USB/OHCI.c:930-949 | nothing is serviced twice in a frame |
| PeriodicSchedule.PeriodIsLargestPower | system/kernel/Drivers/USB/OHCI.c:931-945 | the class is the largest power of two up to 16 that does not exceed the interval, and 8 for interval 0 |
| PeriodicSchedule.Schedule.PolledOncePerPeriod | system/kernel/Drivers/USB/OHCI.c:930-949 | an endpoint is in exactly one of the lists of any P consecutive frames, P being its period |
| ControlTransfer.DataPacketsAt | system/kernel/Drivers/USB/OHCI.c:1056-1091 | the data stage has ceil(Count / MaxPacketSize) packets that tile the buffer in order, all but the last full |
| ControlTransfer.LengthsTile | system/kernel/Drivers/USB/OHCI.c:1080-1083 | every data packet is full but the last, which ends where the data ends |
| ControlTransfer.TransferPackets | system/kernel/Drivers/USB/OHCI.c:1054-1111 | what a transfer sends: setup (0) first, data packets with IN (2) for a device-to-host request and else OUT (1), and a status packet of the other direction, with the addresses, lengths and toggle fields of each |
| ControlTransfer.BuiltFields | system/kernel/Drivers/USB/OHCI.c:1061-1108 | every field of every descriptor of a built chain, in numbers: tokens, toggles, interrupt delays, buffer bounds and links |
| ControlTransfer.StoreIsCopy | system/kernel/Drivers/USB/OHCI.c:1079-1098 | full incoming packets amount to one contiguous copy into the buffer |
| ControlTransfer.LoadIsBuffer | system/kernel/Drivers/USB/OHCI.c:1079-1098 | outgoing packets carry the buffer once, in order |
| ControlTransfer.ExecuteInOrder | system/kernel/Drivers/USB/OHCI.c:1073-1113 | a chain whose descriptors point to their successors executes from head to tail in order |
| ControlTransfer.RequestStorage.BuildRequest | system/kernel/Drivers/USB/OHCI.c:1039-1113 | for every Count and packet size with at most 61 data descriptors, all descriptors have the fields of BuiltFields, the endpoint has its address, packet size, head and tail, and executing the chain from head to tail sends the packets of TransferPackets, device to host exactly if RequestType is 0x80 or more, with the toggle fields of the data stage as they were before |
| ControlTransfer.CompletionExchanges | system/kernel/Drivers/USB/OHCI.c:1085-1091 | a completion exchanges DATA0 and DATA1 in its own descriptor and changes no other |
| ControlTransfer.ToggleFieldIff | system/kernel/Drivers/USB/OHCI.c:1085-1111 | a data descriptor has a toggle of its own if and only if an earlier request ended at it and none after that ended right before it |
| ControlTransfer.SetupAndStatusUseData1 | system/kernel/Drivers/USB/OHCI.c:1067 | every request sends its setup stage as DATA1, and its status stage too |
| ControlTransfer.DataAlternatesIff | system/kernel/Drivers/USB/OHCI.c:1079-1098 | the toggles of the data stage alternate from DATA1 if and only if the fields left in its descriptors are right, in particular 3 in the first |
| ControlTransfer.FirstDataStageFails | system/kernel/Drivers/USB/OHCI.c:1084-1091 | in a first request with data, whatever its size and direction, the data stage does not alternate from DATA1 |
| DoneQueue.RearmedWordDecodes | system/kernel/Drivers/USB/OHCI.c:1234-1235 | the masked word points to the descriptor, has Halted clear and keeps the toggle carry of the word before |
| DoneQueue.HeadPointerBits | system/kernel/Drivers/USB/OHCI.c:1234-1235 | the pointer is the word without its low four bits, the carry is bit 1 and Halted is bit 0 |
| DoneQueue.DeliveredConcat | system/kernel/Drivers/USB/OHCI.c:1217-1228 | one report is due for a HID descriptor with condition code 0 and none for any other, in list order |
| DoneQueue.RetireHidInv | system/kernel/Drivers/USB/OHCI.c:919-928 | a retirement keeps every HID descriptor on exactly one list or endpoint, and the endpoint it leaves has head = tail = dummy |
| DoneQueue.CompleteInv | system/kernel/Drivers/USB/OHCI.c:1204-1232 | the loop body up to NextTD keeps the invariant and consumes one descriptor, whatever the controller does meanwhile |
| DoneQueue.RearmInv | system/kernel/Drivers/USB/OHCI.c:1234-1235 | writing the HeadPointer word puts the descriptor back on its endpoint, not halted and with its carry, and keeps the invariant |
| DoneQueue.AttachInv | system/kernel/Drivers/USB/OHCI.c:908-928 | a new device starts armed and disturbs no list |
| DoneQueue.RunInv | system/kernel/Drivers/USB/OHCI.c:1195-1249 | over every interleaving of controller, handler, attachment and submissions that tangle no list, no descriptor is linked twice, every device that can still be reached is on exactly one list or armed, and its completions equal its reports plus the pending one |
| DoneQueue.QuiescentBalance | system/kernel/Drivers/USB/OHCI.c:1223-1239 | with nothing pending each device within reach is armed and has had exactly one report per successful completion |
| DoneQueue.OnlySubmissionsLose | system/kernel/Drivers/USB/OHCI.c:1115 | no step of controller, handler or attachment puts a device out of reach or brings one back |
| DoneQueue.HandlerProgress | system/kernel/Drivers/USB/OHCI.c:1204-1242 | each handler step uses up the walk, and no handler step changes the toggle carry in any HeadPointer word |
| DoneQueue.ControllerInv | system/kernel/Drivers/USB/OHCI.c:1199-1207 | a controller step keeps the invariant and never touches the list the handler is walking, so the walk terminates |
| DoneQueue.HandlerNeverStuck | system/kernel/Drivers/USB/OHCI.c:1204-1248 | a handler that has started always has a next step until it leaves |
| DoneQueue.SubmitInv | system/kernel/Drivers/USB/OHCI.c:1054-1119 | a submission whose first rebuilt descriptor on the controller's list, if any, is its dummy, or to a halted endpoint, keeps the invariant; the controller's list is cut at that descriptor, and exactly the devices in the HCCA or behind it are lost |
| DoneQueue.SubmitLosesIff | system/kernel/Drivers/USB/OHCI.c:1054-1115 | in any reachable state a submission puts a device out of reach if and only if its descriptor is on the HCCA list or behind a rebuilt descriptor on the controller's list |
| DoneQueue.SubmitCanLoseDevice | system/kernel/Drivers/USB/OHCI.c:1115 | a reachable state in which clearing the HCCA for a request of two descriptors loses a device |
| DoneQueue.SubmitCanLoseBehindControl | system/kernel/Drivers/USB/OHCI.c:1054-1113 | a reachable state, with the HCCA empty, in which rebuilding the descriptors for a request of two loses a device |
| DoneQueue.LostIsUnreachable | system/kernel/Drivers/USB/OHCI.c:1115 | a device that a run has lost is out of reach of controller and handler |
| DoneQueue.LostForGood | system/kernel/Drivers/USB/OHCI.c:1199-1242 | a device out of reach delivers no report in any later run, whatever the controller, the handler, new devices and submissions do |
| DoneQueue.Driver.OHCIInterruptHandler | system/kernel/Drivers/USB/OHCI.c:1195-1248 | one invocation delivers the reports of the whole list in order, writes the words of exactly the HID endpoints on it with pointer to the descriptor, bit 0 clear and bit 1 kept, sets the completion flag exactly if a control descriptor is on the list, empties the HCCA, and does nothing without WritebackDoneHead |
| ControlChain.SubmitTanglesIff | system/kernel/Drivers/USB/OHCI.c:1054-1117 | after a submission some run of the controller leads to a done list that never reaches address 0, if and only if the endpoint is not halted, a rebuilt descriptor is on the controller's list, and the first of them is not the dummy of the new chain |
| ControlChain.TrappedIff | system/kernel/Drivers/USB/OHCI.c:1204-1242 | when the chain is executed up to that descriptor and handed over, the handler walks for ever if and only if no device's descriptor stands before it on the list |
| ControlChain.CircleReports | system/kernel/Drivers/USB/OHCI.c:1204-1242 | otherwise the walk ends, every error-free completion before the first rebuilt descriptor is reported in order, and then that of the first device once more |
| ControlChain.SubmitCanTrapHandler | system/kernel/Drivers/USB/OHCI.c:1204-1242 | a reachable state in which a request of two descriptors leads the handler into a list that points to itself, which it never leaves |
| ControlChain.SubmitCanReportTwice | system/kernel/Drivers/USB/OHCI.c:1204-1242 | a reachable state in which such a request makes the handler report one completion twice |
| ControlChain.CanExecuteIff | system/kernel/Drivers/USB/OHCI.c:1112-1117 | the controller can execute a new chain to its end if and only if the endpoint is not halted |
| ControlChain.HaltedIffFailed | system/kernel/Drivers/USB/OHCI.c:1112 | in any run the endpoint is halted if and only if some control descriptor was retired with an error, whatever was submitted since |
| ControlChain.FlagIffTaken | system/kernel/Drivers/USB/OHCI.c:1117-1215 | in any run the flag that a request waits for is set if and only if the handler has taken a control descriptor since the last submission |
| FrameBuffer.RowBitIsDigit | system/kernel/Terminal.c:117-121 | the eight pixels of a glyph row from left to right are the binary digits of its byte, the highest first |
| FrameBuffer.Screen.DrawGlyph | system/kernel/Terminal.c:112-130 | the enabled pixels of the glyph get the text colour and every other pixel keeps its own; all writes are on the screen |
| FrameBuffer.Screen.ScrollUp | system/kernel/Terminal.c:88-105 | the overlapping forward copy is a simultaneous shift by one text row, and the last text row is cleared |
| FrameBuffer.IndexInjective | system/kernel/Terminal.c:119-127 | different pixels have different places in the linear buffer |
| TextGrid.PutOneInv | system/kernel/Terminal.c:56-132 | the cursor stays on the screen and every cell from the cursor on stays blank, for every character and scroll |
| TextGrid.LastCellStaysBlank | system/kernel/Terminal.c:88-109 | the last cell of the screen is never drawn |
| TextGrid.PutInPlace | system/kernel/Terminal.c:57-79 | where nothing moves up: a printed character fills the cell at the cursor, a carriage return only advances, a newline goes to the start of the next row, a backspace blanks the cell before |
| TextGrid.PutScrolls | system/kernel/Terminal.c:88-110 | at the end of the screen every row moves up by one, the last is blanked and the character goes to its start |
| TextGrid.TabIsFourCells | system/kernel/Terminal.c:80-86 | a tab is four spaces, and away from the end advances by four cells |
| TextGrid.BackspaceUndoesIff | system/kernel/Terminal.c:56-85 | away from the bottom, backspace undoes a character if and only if it is no tab, and a newline only from the last column |
| TextGrid.BackspaceAfterScroll | system/kernel/Terminal.c:88-110 | after a scroll backspace removes the character but the text stays moved up |
| Terminal.DrawInk | system/kernel/Terminal.c:112-130 | drawing over a blank cell gives the rendering of the new grid |
| Terminal.EraseInk | system/kernel/Terminal.c:57-72 | blanking a cell's pixels gives the rendering of the grid without it |
| Terminal.ScrollInk | system/kernel/Terminal.c:88-110 | the rendering of the scrolled grid is the scrolled rendering |
| Terminal.CellPixels | system/kernel/Terminal.c:112-133 | on a valid terminal each cell is eight by sixteen pixels, and the red, green and blue of each pixel are those of the glyph's colour exactly where the binary digit of the font's row byte is 1, else 0 |
| Terminal.BorderIsBlack | system/kernel/Terminal.c:49-53 | the pixels outside the cells are black |
| Terminal.Terminal.TerminalPutChar | system/kernel/Terminal.c:44-133 | after any character every pixel again equals the rendering of the grid after that character, in the effective colour, in the colour set before or light grey |
| Terminal.Terminal.TerminalPutString | system/kernel/Terminal.c:137-142 | the same after any string |
| Terminal.Terminal.TerminalClear | system/kernel/Terminal.c:205-218 | a blank grid with the cursor at 0, whatever was on the screen |
| ElfFile.NumberBytes | elf_loader/elfloader.c:54-76 | byte i of the bytes read is digit i of the number in base 256, the first byte the lowest |
| ElfFile.HeaderFields | elf_loader/elfloader.c:108-192 | in a file longer than its header the cursor reads every field at its ELF64 offset, and the header is accepted if and only if the identification, type, machine and version are right |
| ElfFile.HeaderBytes | elf_loader/elfloader.c:110-192 | a file longer than its header is accepted if and only if sixteen bytes have the values listed, and entry point, table offset and table size are the sums of their bytes |
| ElfFile.HeaderErrors | elf_loader/elfloader.c:110-170 | each of the ten errors is given exactly for the bytes that fail its check and pass those before |
| ElfFile.TableCursor | elf_loader/elfloader.c:216-235 | after k headers the cursor is at the table offset plus 56 k |
| ElfFile.TableLayout | elf_loader/elfloader.c:218-235 | header k is decoded from its own 56 bytes |
| ElfFile.EntryBytes | elf_loader/elfloader.c:220-234 | an entry is PT_LOAD if its first four bytes are 1, 0, 0, 0, and its fields are the eight-byte numbers at 8, 16, 32, 40 and 48 |
| ElfFile.Seek.ReadNumber | elf_loader/elfloader.c:54-76 | a read happens only strictly before the last bytes of the file, and otherwise gives 0 in place |
| ElfImage.UsedIffLoadsFirst | elf_loader/elfloader.c:218-249 | the loader uses exactly the PT_LOAD entries if and only if they come first, for entries that are not all zeros |
| ElfImage.PhdrFirstLosesSegment | elf_loader/elfloader.c:218-239 | behind a PT_PHDR entry the one PT_LOAD entry is not among the segments used |
| ElfImage.SegmentsAreTable | elf_loader/elfloader.c:216-235 | with PT_LOAD entries first the segments are the decoded entries in order |
| ElfImage.MinAddressAttained | elf_loader/elfloader.c:238-244 | the smallest address is that of some segment |
| ElfImage.EndWraps | elf_loader/elfloader.c:266-267 | a segment end is exact if it fits 64 bits and else too small by 2^64 |
| ElfImage.MemorySizeIsLeast | elf_loader/elfloader.c:263-269 | the reported size is the least bound on the segment ends |
| ElfImage.ImageIsCorrect | elf_loader/elfloader.c:282-293 | with disjoint segments each segment's bytes are the file bytes at its offset and then zeros, and no other byte changes |
| ElfImage.ImageBytes | elf_loader/elfloader.c:282-287 | with disjoint segments the bytes of each are the file's from its offset, then zeros, and bytes of no segment keep their values |
| ElfImage.FileReachesMemory | elf_loader/elfloader.c:216-293 | byte i of the segment that entry k of the file's table describes is, in memory, the file's byte or zero |
| ElfImage.ReadReports | elf_loader/elfloader.c:210-298 | which error, size and entry point a call reports: header errors, more than 32 table entries, too little memory exactly when the size given is below the size computed, or none |
| ElfImage.EntryMoves | elf_loader/elfloader.c:251-295 | the entry point is reported where the byte of the segment that holds it goes |
| ElfImage.TwoPassesAgree | bootloader/uefiboot_libc.c:701-713 | if sizing succeeds, loading with at least the reported memory succeeds with the same size and the entry point moved by the base modulo 2^64 |
| ElfImage.ReportedSizeSuffices | elf_loader/elfloader.c:263-288 | if no segment end wraps and no segment has more file than memory bytes, every write stays in the reported memory |
| ElfImage.ReportedSizeIsLeast | elf_loader/elfloader.c:263-269 | no smaller size would hold all rebased segments |
| ElfLoader.ReadMagic | elf_loader/elfloader.c:31-38 | the check passes exactly when file and magic agree as far as both go, and the cursor leaves the file exactly when the file ends inside the magic |
| ElfLoader.TruncatedMagic | elf_loader/elfloader.c:110 | a file of two bytes with which the cursor is outside after the check |
| ElfLoader.ReadHeader | elf_loader/elfloader.c:108-192 | for every file that does not end inside the magic, the sequence of reads and early errors gives the header or the first failing check |
| ElfLoader.ReadTable | elf_loader/elfloader.c:216-235 | entry i lands in slot i and the PT_LOAD entries are counted |
| ElfLoader.Loader.LoadSegment | elf_loader/elfloader.c:282-287 | exactly the segment's bytes change, to file bytes and zeros |
| ElfLoader.Loader.elfloader_read | elf_loader/elfloader.c:102-299 | result, error and memory for every file that does not end inside the magic, in both modes; memory changes only on a successful load |
| ElfLoader.Loader.LoadElf | bootloader/uefiboot_libc.c:692-716 | a sound file is loaded by the two calls without a second error, nothing outside the allocated range changes, and if its table is well formed every segment of the table is in memory, file bytes and then zeros |
| ElfLoader.InMemoryBytes | elf_loader/elfloader.c:216-293 | what it means that a table is in memory: byte i of each segment is the file's byte at its offset plus i, or zero from the file size on |
| EventQueue.RingHoldsLatest | system/kernel/Input.c:217-219 | the sixteen slots hold the latest sixteen pushes, each in the slot of its number modulo 16 |
| EventQueue.RingContents | system/kernel/Input.c:216-217 | the slots hold exactly the latest sixteen pushes |
| EventQueue.InputPollCharacterEvent | system/kernel/Input.c:438-473 | delivers an event with the smallest tick newer than the last, the one in the highest slot, or reports that there is none |
| EventQueue.DrainIncreases | system/kernel/Input.c:438-473 | the ticks delivered to a subscriber strictly increase |
| EventQueue.DrainIsComplete | system/kernel/Input.c:438-473 | a drained subscriber has received exactly the distinct ticks newer than its last among the events in the ring |
| EventQueue.DrainTerminates | system/kernel/Input.c:475-479 | a ring yields at most one event per slot |
| EventQueue.SameTickDeliversOne | system/kernel/Input.c:204-217 | of the events that share a tick at most one is delivered |
| EventQueue.AllDeliveredIff | system/kernel/Input.c:438-473 | a drained subscriber has received every eligible event if and only if no two of them share a tick |
| EventQueue.PollIsDequeue | system/kernel/Input.c:438-473 | with strictly increasing ticks and at most sixteen outstanding, a poll takes the oldest outstanding push |
| EventQueue.RingIsFifo | system/kernel/Input.c:215-225 | over every run of pushes and polls with increasing ticks and at most sixteen outstanding, the ring is a FIFO queue: the events received are the first of those pushed, in order, and a poll finds nothing only when all have been received |
| Keyboard.AlternatingBalance | system/kernel/Input.c:215-225 | for alternating edges, presses minus releases is the key's state |
| Keyboard.AsciiIffPrintable | system/kernel/Input.c:235-431 | exactly the ASCII keys give printable characters, with any modifiers |
| Keyboard.LettersAndCaps | system/kernel/Input.c:421-428 | keys 0x04 to 0x1D type the letters in order, capitals exactly when one of shift and caps lock is on, and caps lock matters to no other key |
| Keyboard.KeyCaps | system/kernel/Input.c:340-403 | the digit and symbol keys type the characters on their caps, without and with shift |
| Keyboard.OtherKeys | system/kernel/Input.c:404-419 | which keys type newline, backspace, tab and space, and that the remaining ones type nothing |
| Keyboard.KeyTypingInverse | system/kernel/Input.c:340-403 | the table from characters to key and shift state is the inverse of the keyboard |
| Keyboard.DownMeans | system/kernel/Input.c:193-203 | a modifier is down if the report has it on either side, any other key if it is listed before the first zero |
| Keyboard.EventsAre | system/kernel/Input.c:205-224 | an event is that of a key whose flag has changed, with the tick of the report, its three modifiers and the character they give |
| Keyboard.EventsAscend | system/kernel/Input.c:206-225 | the events of a report come in the order of their keys |
| Keyboard.EventsComplete | system/kernel/Input.c:216-225 | every key whose flag has changed has its event |
| Keyboard.TwoKeysLoseOne | system/kernel/Input.c:204-217 | of two keys pressed in one report the press of the first is in the ring but no drain delivers it |
| Keyboard.InputState.ReadReport | system/kernel/Input.c:189-202 | a key's flag is set if and only if the report lists it before its first zero, or the modifier bit says so |
| Keyboard.InputState.InputPushKeyboardEvent | system/kernel/Input.c:184-231 | over any sequence of reports each key's press and release events alternate and agree with its flag, caps lock is the parity of its presses, both rings hold the latest pushes, and the events pushed are exactly the changed keys in scan code order; caps lock flips exactly when its key goes down, and Ctrl, Alt and Delete together ask for the reset |
| LineEditor.WhatKeysDo | system/kernel/Input.c:498-521 | only C with Control empties a line, Enter enters it, backspace takes the last character, and anything else is added or, on a full line, rejects it |
| LineEditor.Displays | system/kernel/Input.c:493-520 | what is shown after the prompt for a line being edited, entered or rejected |
| LineEditor.EchoFits | system/kernel/Input.c:514-517 | an echoed line occupies the cells from its start, character by character, and changes no other cell |
| LineEditor.EchoUndone | system/kernel/Input.c:502-505 | one backspace takes the last echoed character off the screen |
| LineEditor.KeyboardIsPlain | system/kernel/Input.c:257-431 | the keyboard's characters other than tab are ones the editor can echo and erase |
| LineEditor.EraseLine | system/kernel/Input.c:509-511 | the Ctrl-C loop terminates with one character left to erase |
| LineEditor.WritesInsideIff | system/kernel/Input.c:502-515 | every write of the editor stays inside a buffer of Size slots if and only if no backspace meets a full line, and with one more slot always |
| LineEditor.FullLineThenBackspace | system/StartKernel.c:38 | Size characters and a backspace write outside the buffer of Size slots that the shell passes |
| LineEditor.ResidueIff | system/kernel/Input.c:502-505 | the slot after the text holds a character if and only if the last effective edit was a backspace |
| LineEditor.ShellSeesLineIff | system/StartKernel.c:40-53 | for a line shorter than the buffer, the shell takes the line that was typed, or none for length 0, if and only if the returned length is 0 or the last effective edit was not a backspace |
| LineEditor.ShellTakesErased | system/StartKernel.c:38-53 | after two characters, a backspace and Enter the line is the first character and the shell takes both |
| LineEditor.TerminatedIff | system/StartKernel.c:38-53 | in a buffer of Size slots that no write has left there is a terminator if and only if the line is shorter than the buffer |
| LineEditor.InputReadLine | system/kernel/Input.c:490-523 | after any events without tabs whose lines fit the screen, the buffer holds the edited line, the character left by a last backspace and zeros, the slot behind the buffer is zeroed exactly by a backspace on a full line, and the screen shows exactly that line and the underscore from where it started |
| Decimal.DigitBounds | bootloader/uefiboot_libc.c:214-268 | a 64-bit magnitude has at most 19 digits, a 32-bit one at most 10, so text and terminator fit |
| Decimal.DigitAt | bootloader/uefiboot_libc.c:288-292 | character i before the reversal is the decimal digit for 10^i |
| Decimal.TextShape | bootloader/uefiboot_libc.c:278-302 | 0 is printed as one digit, any other number as its digits with a minus sign in front if it is negative |
| Decimal.Printer.ToString | bootloader/uefiboot_libc.c:213-318 | the buffer holds the decimal text and its terminator, and only the next of the eight buffers changes |
| Decimal.ReverseInPlace | bootloader/uefiboot_libc.c:303-312 | the swap loop mirrors the text |
| Decimal.StringToInt64 | system/elf_libc.c:191-216 | skips blanks, takes one sign and the digits up to the first other character; a null pointer gives 0 |
| Decimal.DigitsAppend | system/elf_libc.c:209-213 | a further digit multiplies the value by ten and adds itself |
| Decimal.ParseText | system/elf_libc.c:198-216 | six kinds of blanks, one sign, digits and whatever follows parse as the signed value of the digits |
| Decimal.DigitsInverse | system/elf_libc.c:209-213 | reading the printed digits gives the number back |
| Decimal.RoundTrip | system/elf_libc.c:191-216 | parsing a printed 64-bit number gives it back, and the parser's i64 suffices if and only if the number is above the smallest one |

## Left out

- DoneQueue.RunInv: a run has only the submissions that cannot lead to a list without end, which are known exactly by ControlChain.SubmitTanglesIff; SubmitLosesIff, LostForGood and HaltedIffFailed hold for all submissions.
- ControlChain.TrappedIff: it is about the run that executes the chain up to that descriptor without errors and hands the list over with nothing in between; that other runs can bring a device's descriptor into the circle is not stated.
- DoneQueue.Complete: the writes of ErrorCount, DelayInterrupt and the buffer pointers of a completed descriptor are not modelled, because no list depends on them.
- DoneQueue.Driver.OHCIInterruptHandler: the completion flag is set for any control descriptor, so by ControlChain.FlagIffTaken it does not say that the status stage finished.
- ControlTransfer.RequestStorage.BuildRequest: the clearing of the data buffer, the wait for completion and short packets are not modelled; a positive Count with a null buffer has no data to send, and a request for more than 61 data descriptors writes behind the array of 64.
- LineEditor.InputReadLine: lines with tabs, and lines that scroll the screen while they are typed, are not covered, because one backspace does not undo a tab or a scroll.
- LineEditor.ShellSeesLineIff: a line that fills the whole buffer has no terminator in it, by TerminatedIff, and what the shell reads behind the buffer is not part of this model.
- Allocator.PageAllocator.FreePages: freeing a pointer that is not a live block is not covered, because the code reads an arbitrary header there.
- ElfLoader.Loader.elfloader_read: a call that loads needs every segment inside file and memory, because the code checks neither; a file that ends inside the magic is read outside its bytes, by ReadMagic.
- ElfLoader.Loader.LoadElf: files whose segments wrap, lie outside the file or have more file than memory bytes are not covered, for the same reason.
- Decimal.StringToInt64: digit strings of 2^63 or more overflow a signed accumulator, which C leaves undefined.
- Terminal.Terminal.TerminalPutChar: a backspace at position 0 and characters from 128 on index outside the screen and the font, so they are preconditions.
- ClearTerminal with a coloured background (the panic screen): drawing assumes black cells.
- Interrupt masking, 64-bit wrap-around of tick counts and of the screen position, and the Reserved byte of a pixel.
- The printf formatter, the shell, the mouse, USB hubs, mass storage, string descriptors, PCI, the descriptor tables, the timer and the UEFI calls of the bootloader: device and firmware plumbing.
