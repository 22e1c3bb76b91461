# FerrumVM: a verified model of the virtual machine monitor and its firmware

FerrumVM is a KVM monitor written in Rust together with a small UEFI-style firmware written
in C. Guest and host share memory: the guest's drivers build request chains in the split
rings of VirtIO, the host's devices serve them and raise interrupts through an MMIO
transport, and the firmware on the other side reads a disk, allocates memory, builds page
tables and loads a PE image. This project models that logic in Dafny and proves what each
part is for, over whole runs wherever the part has state.

`dafny verify dfyconfig.toml` checks everything.

## What is proved

**Split virtqueues** (`Bytes`, `GuestRam`, `Virtqueue`, `RingProtocol`). Guest RAM is a byte
array; the 16-bit indices are the source's own. `RingProtocol` cuts both sides into single
memory accesses and interleaves them freely, with arbitrary writes elsewhere in between. For
every run of any length from a queue just made ready (`RunsAreFifo`), the wrapping indices
stand for unbounded counters that stay ordered and within one ring of each other, heads are
popped exactly as published, and what the driver reaps is what the device pushed for that
head. Every access refines a step of an unbounded FIFO channel (`StepRefinesChannel`). The
ring arithmetic is right for exactly the sizes that divide 65536 (`RingSizeMustDivide`).

**Block I/O end to end** (`BlkDevice`, `BlkDriver`, `BlkInit`). The firmware's polling driver
and the host's device are composed through the rings in shared memory. For every sequence of
requests, every position of the descriptor cursor, and any number of device ticks before every
store of the driver, around the notification and while it polls, the statuses, the disk and
all memory that is not the driver's own are those of copying directly between buffer and disk
(`Driver.RunAll`). From that reference follow what a read returns, what a write changes, and
that a read returns the bytes of the last write to its range (`LastWriteWins`). The register writes of the driver's set-up, run through the
transport, leave exactly the queue the driver assumes (`BlkInit.Init`).

**Every tick retires what it takes** (`Retire`, `DeviceRuns`). A device tick is shown to be a
run of turns: each takes the head that is next in the available ring, does something to
memory, and pushes that head. `BatchRetires`, `ControlRetires`, `CursorRetires`, `RxRetires`,
`TxRetires` and `FsRetires` prove this for the block, GPU, network and shared-folder devices,
on every path on which the device comes back, malformed chains included. From it follow, for all of them, that both queue
indices move together (`IndicesMoveTogether`), when a loop ends (`LoopEnds`), and, with buffers
outside the rings, which entry of the used ring holds which head (`HeadsReturned`; `BatchSettles`,
`RxSettles`, `TxSettles` and `FsSettles` for single devices). Over whole
runs of a device behind its transport, the two indices of a queue agree between events as long
as the driver makes no queue ready twice without a reset (`RunsStaySynced`).

**Descriptor chains** (`Chain`, `FsDevice`). Gathering a control request ends on every
descriptor table, cycles included, and finds the request if and only if there is one. The
shared-folder device's two walks have no such bound; they are modelled on chains of any shape,
with the exact conditions under which they return.

**The GPU resource machine** (`GpuTransfer`, `GpuDevice`, `GpuCommands`). Every command sequence and reset
keeps the invariant of resource table and scanouts. Reading a range of scattered backing pages
is a slice of their concatenation for any page list. What any transfer yields is given byte by
byte, and it is exact if and only if the pages cover the rectangle. Create, attach, bind,
transfer and flush, encoded as bytes and sent as five chains through the control queue, put the
guest's picture on the display (`PictureReachesDisplay`), and the driver reads the responses.

**Interrupts** (`Mmio`, `Interrupts`). For every interleaving of register accesses, ticks,
commands of other devices and drains, commands applied, taken and still queued always join to
the history, and a line is high in that history exactly while its transport has an interrupt
pending, in every run, if and only if nothing else drives the line (`LineAgreesIff`).
Acknowledging clears exactly the bits written and lowers the line exactly when none is left
(`AckClears`).

**Network** (`NetDevice`). No frame is lost for want of a buffer, in any sequence of arrivals and
ticks; at the end of a receive tick each frame that fitted lies in the buffer it met, and a
transmit tick hands over what lay behind the header of each waiting buffer (`TxSends`).

**Firmware** (`Heap`, `Fat32`, `FatDir`, `PeLoader`, `Paging`). The heap's linked free list is
tied to an abstract sequence and its invariant is kept by every disciplined run. Files and
directories are stated in the disk's own bytes: the FAT entries that link the clusters, cyclic
chains included, and the clusters' contents (`FileOnDisk`, `ListDir`). Relocation is stated over
a table as a linker lays it out: each pointer it lists as a 64-bit fixup moves, nothing else
does, and pointers in a loaded image point where they should (`LoadedPointersMove`,
`LoadedBytesStay`). The page tables built are walked as a processor walks them, for every
48-bit address.

**Layout and encoding** (`SlotCarving`, `MemoryMap`, `DirPaging`). KVM slots are the region
minus the APIC holes; the memory map survives its trip from the host's list through guest
memory to UEFI descriptors (`MapTrip`); directory pages parse back to the whole listing.

## Where the code falls short of the property

Each of these has a lemma with an input on which the property fails and, beside it, the
condition under which it holds.

- `malloc` computes the block size and the new heap pointer in 64 bits without a check. A
  request within 23 bytes of 2^64 wraps to a tiny block and succeeds (`HugeRequestSucceeds`);
  the heap invariant survives a call exactly when neither sum wraps in a way that matters
  (`MallocSafeIffInv`). A heap that starts at 0 loses its first block once that is freed
  (`ZeroStartLosesBlock`, `InitHeap`).
- A sector number is scaled to bytes in 64 bits. With overflow checks off, sectors from 2^55
  on alias low ones (`OffsetExact`, `OffsetWraps`).
- The shared-folder device collects a request without counting its steps. A readable
  descriptor linked to itself is taken and never returned (`SelfLinkNeverReturns`); the device
  comes back exactly under the conditions of `HiprioReturnsIff` and `RequestReturnsIff`.
- A directory call on a chain that loops without anything to show never returns
  (`SilentLoopHangs`); otherwise it does so within 2^32 clusters (`ScanInTime`).
- The GPU's row buffer is reused from row to row, so rows not covered by backing pages repeat
  an earlier row (`UncoveredRowIsStale`, `TransferYields`; `ExactIffCovered`).
- Making a queue ready again without a reset clears only one of its two indices
  (`RestartFails`, `SyncedUnlessRestarted`).
- Two transports on one interrupt line, as the random-number and counter devices are, can lower
  each other's pending interrupt (`SharedLineFails`), and so can a device without a transport
  (`ForeignLineFails`); agreement holds exactly on lines with one driver (`LineAgreesIff`).
- The deleted-entry test of the directory reader compares a plain `char` with 0xE5. Where
  `char` is signed, as in this firmware's x86 build, the test never holds and deleted entries
  are listed (`DeletedShownIffSigned`).
- The count of GiB to map is cut to 32 bits; RAM of 2^62 - 2^30 + 1 bytes maps one GiB
  (`HugeRamMapsOneGb`, `MappedGbExact`).
- Rounding a memory-map entry's start up to a page wraps near 2^64 (`TopEntryCoversPageZero`,
  `ConvertedExact`).
- Cluster-to-sector arithmetic is 32 bits wide (`ClusterWraps`, `ClusterToLbaExact`).
- `read_file` rounds its last read up to a sector, so it can write past the size its caller
  gave (`ReadFile`, `OverrunIff`).

Other points where the code does more or less than its comments suggest, kept in the model:
the shared-folder device pushes a used length of 0 whatever it wrote; a request header cut
short reads as zeros and is dispatched all the same; `memmap_length` is taken from the map
without limiting it to the 32 entries stored.

## Reading the model

- Reads outside RAM give zeros and writes there are dropped, as the bulk accessors do; the
  typed accessors of the source would panic past the end of the region, which ends the run.
- The source's integer widths are explicit (`% 0x1_0000` and so on); addresses are natural
  numbers.
- Each class has a `View()`; methods are specified by functions on views, and the properties
  are lemmas about those functions.
- Loops that a guest can keep supplied with work take the number of rounds as a parameter, and
  what is stated holds for every number.

## Model

| member | source | states |
|---|---|---|
| Bytes.FromToLe | src/devices/virtio/virtio.rs:64-121 | decoding the little-endian encoding of a value that fits gives the value back |
| Bytes.ToFromLe | src/devices/virtio/virtio.rs:154-199 | encoding what was decoded gives the same bytes back |
| GuestRam.GuestMemory.ReadBytes | src/devices/virtio/virtio.rs:129-148 | the bytes of the addressed range, zeros wherever the range is not in RAM |
| GuestRam.GuestMemory.WriteBytes | src/devices/virtio/virtio.rs:201-212 | the range holds the data afterwards and every other byte is unchanged; a range outside RAM changes nothing |
| Virtqueue.VirtioQueue.PopAvail | src/devices/virtio/virtio.rs:264-284 | a head is taken if and only if the published index differs from the last one seen, and it is the ring entry at that position |
| Virtqueue.VirtioQueue.PushUsed | src/devices/virtio/virtio.rs:286-301 | element id, element length and index are written in that order and the index advances by one modulo 2^16; nothing happens on a queue of size 0 |
| Virtqueue.VirtioQueue.GetDescriptor | src/devices/virtio/virtio.rs:303-312 | the four little-endian fields of the 16-byte table entry |
| RingProtocol.RingSizeMustDivide | src/devices/virtio/virtio.rs:264-301 | the slot arithmetic is right for all counters if and only if the ring size divides 65536 |
| RingProtocol.GuestSlotKeeps | guest/firmware/virtio/blk.c:82-83 | writing the next available slot cannot clobber a head not yet popped |
| RingProtocol.GuestIdxKeeps | guest/firmware/virtio/blk.c:83-85 | moving the available index publishes exactly the head written before it |
| RingProtocol.GuestReapKeeps | guest/firmware/virtio/blk.c:94-99 | reaping takes the oldest pushed element and no other |
| RingProtocol.HostTakeKeeps | src/devices/virtio/virtio.rs:264-284 | the head taken is the oldest one published and not yet popped |
| RingProtocol.HostIdxKeeps | src/devices/virtio/virtio.rs:286-301 | when the used index moves the element below it is already complete |
| RingProtocol.DataKeeps | src/devices/virtio/virtio.rs:201-212 | writes clear of both rings disturb nothing in flight |
| RingProtocol.StepKeepsInv | src/devices/virtio/virtio.rs:264-301 | every single memory access of either side keeps the ring invariant |
| RingProtocol.StepRefinesChannel | src/devices/virtio/virtio.rs:264-301 | every single memory access is a step of an unbounded FIFO channel or invisible in it |
| RingProtocol.RunKeepsInv | src/devices/virtio/virtio.rs:264-301 | the ring invariant holds after every interleaving of any length |
| RingProtocol.RunsAreFifo | guest/firmware/virtio/blk.c:82-99 | from a fresh queue, in every interleaving: reaped <= used <= popped <= published <= reaped + size, heads popped in publication order, each reaped element is the one pushed for the head published at that position |
| RingProtocol.EmptinessTests | guest/firmware/virtio/blk.c:94-96 | the wrapped index comparisons of both sides decide emptiness of the unbounded queues |
| RingProtocol.PopIsLookThenTake | src/devices/virtio/virtio.rs:264-284 | the pop operation is two steps of the interleaved protocol |
| RingProtocol.PushIsThreeWrites | src/devices/virtio/virtio.rs:286-301 | the push operation is three steps of the interleaved protocol, in that order |
| Retire.IndicesMoveTogether | src/devices/virtio/virtio.rs:264-301 | heads taken are heads returned: after any number of turns both indices have moved by that number and nothing else of the queue has |
| Retire.LoopEnds | src/devices/virtio/devices/gpu.rs:656-940 | while no turn changes the published index, a serving loop takes exactly (idx - last) mod 2^16 heads if its rounds allow, and nothing is pending afterwards if and only if they do |
| Retire.HeadsReturned | src/devices/virtio/virtio.rs:286-301 | with buffers outside the rings and at most a ring of heads: the j-th head taken is the j-th entry of the available ring, and the used ring holds it at the j-th place with its length |
| Retire.TickSettles | src/devices/virtio/virtio.rs:264-301 | such a tick with rounds enough takes exactly what was due, returns each head at its own place and leaves nothing pending |
| BlkDevice.BlkVirtio.Tick | src/devices/virtio/devices/blk.rs:95-199 | a batch of at most 64 requests; memory and queue end as after a run of turns, each taking the next pending head and pushing it back |
| BlkDevice.BatchRetires | src/devices/virtio/devices/blk.rs:107-196 | on every path, malformed chains and failed seeks included, the batch is such a run of turns |
| BlkDevice.BatchSettles | src/devices/virtio/devices/blk.rs:107-196 | with data buffers and status bytes outside the rings, a tick takes exactly what was due, answers each head at its own place and leaves nothing pending |
| BlkDevice.PerformReports | src/devices/virtio/devices/blk.rs:147-196 | a transfer at a position a file can have reports work and the data length, failed or not; any other changes and reports nothing |
| BlkDevice.BlkVirtio.HandleHead | src/devices/virtio/devices/blk.rs:112-195 | memory, disk and used element for one head, malformed chains and failed seeks included; the head is always pushed |
| BlkDevice.BlkVirtio.Transfer | src/devices/virtio/devices/blk.rs:147-191 | what a well-formed chain does to memory and disk, and the status byte reported |
| BlkDriver.Driver.Prepare | guest/firmware/virtio/blk.c:55-80 | three linked descriptors at the cursor, request header and status byte in place, cursor advanced by three modulo the ring, with any number of device ticks before every store |
| BlkDriver.Driver.Publish | guest/firmware/virtio/blk.c:55-85 | the chain is prepared and published, with any number of ticks before every store, none of which is noticed |
| BlkDriver.Driver.Await | guest/firmware/virtio/blk.c:87-99 | whenever the first tick after publication comes, before, at or after the notification, it serves the chain; all later ones change nothing |
| BlkDriver.PreparedChain | guest/firmware/virtio/blk.c:65-80 | the device, following the links in memory, finds exactly the driver's header, data and status descriptors |
| BlkDriver.ServeChain | src/devices/virtio/devices/blk.rs:112-146 | on such a chain the device takes none of its error paths and performs the driver's request |
| BlkDriver.PerformIsDirect | src/devices/virtio/devices/blk.rs:147-191 | what the device does to memory and disk is a direct copy between the caller's buffer and the disk |
| BlkDriver.DeviceTurn | src/devices/virtio/devices/blk.rs:107-196 | pop, perform and push are one run of the ring protocol and leave nothing pending |
| BlkDriver.HostTurn | src/devices/virtio/devices/blk.rs:95-199 | one tick after publication leaves the direct copy's disk and status and, outside the driver's own memory, its RAM; it reports work, and the used element carries the head and the length of the request, exactly if the sector's byte offset is below 2^63 |
| BlkDriver.ReapTurn | guest/firmware/virtio/blk.c:94-99 | the poll then succeeds, and reaping returns the rings to rest |
| BlkDriver.Driver.Transfer | guest/firmware/virtio/blk.c:55-102 | one read or write, with ticks anywhere in between: status, disk and all memory not the driver's own are those of a direct copy |
| BlkDriver.Driver.RunAll | guest/firmware/virtio/blk.c:55-151 | the same for every sequence of reads and writes, every cursor position, and any number of ticks before every store, around the notification and while polling |
| BlkDriver.ReadReturnsDisk | src/devices/virtio/devices/blk.rs:148-168 | a read reports 0 if and only if its range is on the disk, 1 past the end, and leaves the driver's 0xFF past 2^63; then the buffer holds that range, otherwise it is unchanged; the disk never changes |
| BlkDriver.WriteReports | src/devices/virtio/devices/blk.rs:169-190 | a write reports 0 if and only if its range fits the file, 1 otherwise, and leaves the driver's 0xFF past 2^63; one wholly past the limit changes nothing |
| BlkDriver.WriteChangesRange | src/devices/virtio/devices/blk.rs:169-190 | a successful write changes exactly its own range of the disk, zeros filling any gap |
| BlkDriver.WriteThenRead | guest/firmware/virtio/blk.c:55-151 | reading back a range just written succeeds and returns the written bytes |
| BlkDriver.LastWriteWins | guest/firmware/virtio/blk.c:55-151 | in any sequence of requests, a read inside a range an earlier write filled, with no write in between touching what is read, succeeds and returns those bytes of the earlier buffer |
| BlkDriver.OffsetExact | src/devices/virtio/devices/blk.rs:149-153 | scaling the sector is exact if and only if it is below 2^55 |
| BlkDriver.OffsetWraps | src/devices/virtio/devices/blk.rs:149-153 | a read of sector 2^55 succeeds and returns the start of the disk |
| BlkInit.Negotiate | guest/firmware/virtio/blk.c:14-21 | whatever the transport held before, every queue is cleared and the line lowered |
| BlkInit.Init | guest/firmware/virtio/blk.c:13-44 | from any transport state, queue 0 ends as the driver assumes it (own rings, size 16, both indices 0, ready), the other queues are cleared, nothing is pending |
| Chain.RequestOf | src/devices/virtio/devices/gpu.rs:73-108 | there is a request if and only if some chain prefix is readable, within size and byte limits, and ends at a writable descriptor; then it is that prefix joined |
| Chain.RequestBounded | src/devices/virtio/devices/gpu.rs:85-95 | a request is non-empty, at most 256 KiB, and its response descriptor is writable |
| Chain.Gather | src/devices/virtio/devices/gpu.rs:73-108 | within `size` steps on any table, cycles included, the request of the chain, or nothing when it has none |
| Chain.CollectReadable | src/devices/virtio/devices/fs.rs:52-75 | the buffers before the first writable descriptor, joined, on every chain on which the walk ends, whatever lies behind it |
| Chain.CollectedIff | src/devices/virtio/devices/fs.rs:60-72 | collecting returns if and only if some descriptor of the chain is writable or links no further |
| Chain.StopsInTime | src/devices/virtio/devices/fs.rs:60-72 | a walk that ends does so within 2^16 descriptors |
| Chain.WriteOutReply | src/devices/virtio/devices/fs.rs:77-102 | the reply laid over the writable descriptors of any chain on which that ends, cyclic ones and ones whose buffers overlap the table included |
| Chain.LaidIff | src/devices/virtio/devices/fs.rs:86-99 | with buffers clear of the descriptors, laying a reply returns if and only if the chain ends, or its writable buffers up to some descriptor hold the whole reply |
| Chain.LaidInTime | src/devices/virtio/devices/fs.rs:86-99 | on every chain, buffers that overlap the table included: laying a reply ends within one pass over the table for every byte of it and one more, or never |
| Chain.LaidIsScattered | src/devices/virtio/devices/fs.rs:86-99 | then the reply lies over the writable descriptors in chain order |
| Chain.ScatterFills | src/devices/virtio/devices/fs.rs:77-102 | the writable buffers, read in chain order, hold the first min(reply, room) bytes of the reply and then what they held before |
| Chain.ScatterFrame | src/devices/virtio/devices/fs.rs:77-102 | memory apart from the writable buffers is unchanged |
| GpuTransfer.ReadBackingRange | src/devices/virtio/devices/gpu.rs:560-585 | the loop over pages, with its skip, clamp and early exit, computes the page-by-page fetch |
| GpuTransfer.FetchPagesSlices | src/devices/virtio/devices/gpu.rs:560-585 | that fetch is a slice of the concatenated pages, for any page list, empty pages included; bytes beyond them keep their value |
| GpuTransfer.BackingLenExact | src/devices/virtio/devices/gpu.rs:548-552 | the saturating sum of page lengths is the length of the concatenation |
| GpuTransfer.RowFits | src/devices/virtio/devices/gpu.rs:538-545 | a row of a contained rectangle lies inside its line and inside the data, so the length clamp never truncates |
| GpuTransfer.TransferRows | src/devices/virtio/devices/gpu.rs:846-864 | the row loop with its reused buffer, row by row |
| GpuTransfer.TransferIsPixelExact | src/devices/virtio/devices/gpu.rs:846-864 | when the pages cover the rectangle, each byte inside it equals the concatenation at offset plus its own position, each byte outside is unchanged |
| GpuTransfer.TransferRowByRow | src/devices/virtio/devices/gpu.rs:846-864 | the same by row and column: byte c of row r is the concatenation at offset + (y+r)*stride + x*4 + c |
| GpuTransfer.TransferYields | src/devices/virtio/devices/gpu.rs:846-864 | any transfer over pages in RAM, covered or not: a byte of row j is that of the latest row up to j still inside the joined pages, or 0 if there is none; bytes outside the rectangle are unchanged |
| GpuTransfer.LatestIs | src/devices/virtio/devices/gpu.rs:846-864 | that latest row is the last one whose column lies inside the pages, and the byte is 0 if no row is |
| GpuTransfer.ExactIffCovered | src/devices/virtio/devices/gpu.rs:846-864 | a transfer over pages in RAM is exact if and only if they reach to the end of the rectangle |
| GpuTransfer.UncoveredRowIsStale | src/devices/virtio/devices/gpu.rs:846-864 | with pages for only the first of two rows, the second row repeats the first |
| GpuDevice.NewResourceShaped | src/devices/virtio/devices/gpu.rs:509-535 | an accepted resource has stride 4*width and stride*height bytes, at most 256 MiB |
| GpuDevice.CreateAnswers | src/devices/virtio/devices/gpu.rs:685-719 | OK if and only if the command is whole, its id new, fewer than 64 resources exist, the format is one of four, both sides are 1 to 16384 and 4*width*height is at most 256 MiB; then exactly that resource is added, of the command's own width and height, without pages, all zero; otherwise nothing changes, and a known id has its own code |
| GpuDevice.UnrefRemoves | src/devices/virtio/devices/gpu.rs:720-738 | the drop command removes its resource, darkens exactly the scanouts that showed it and touches nothing else |
| GpuDevice.BindSets | src/devices/virtio/devices/gpu.rs:739-771 | one scanout is set: dark for id 0, showing a live resource at the command's rectangle, or refused for an unknown scanout or resource |
| GpuDevice.BlitsAre | src/devices/virtio/devices/gpu.rs:772-800 | a flush shows the resource once on each scanout bound to it, in scanout order, and on no other |
| GpuDevice.DetachEmpties | src/devices/virtio/devices/gpu.rs:886-906 | the detach command takes a live resource's pages away and leaves its pixels |
| GpuDevice.UnknownRefused | src/devices/virtio/devices/gpu.rs:907-917 | codes that are not commands are answered as unsupported and change nothing |
| GpuDevice.UnrefKeeps | src/devices/virtio/devices/gpu.rs:720-738 | removing a resource leaves no scanout bound to it |
| GpuDevice.ExecuteKeepsInv | src/devices/virtio/devices/gpu.rs:676-921 | every command, known or unknown, well-formed or not, keeps the invariant |
| GpuDevice.RunsStayValid | src/devices/virtio/devices/gpu.rs:647-1001 | after every sequence of commands and resets from a fresh device: bound scanouts name live resources, every resource is shaped, at most 64 exist |
| GpuDevice.TransferCommandExact | src/devices/virtio/devices/gpu.rs:801-867 | the whole command, on a contained and covered rectangle, answers OK, is pixel-exact and changes nothing but that resource's data |
| GpuDevice.PixelsReachDisplay | src/devices/virtio/devices/gpu.rs:685-885 | create, attach, bind, transfer whole and flush are all accepted and produce exactly one blit: as many bytes of the guest's pages, in order, as four times the command's width and height, with a stride of four times the width |
| GpuDevice.QueueReachesDisplay | src/devices/virtio/devices/gpu.rs:654-941 | the same for five chains on the control queue that carry the commands when their turns come: after five rounds of gathering, executing and answering the blit is there |
| GpuCommands.AttachReads | src/devices/virtio/devices/gpu.rs:388-408 | the device reads back the page list a driver writes, address, length and padding to a page |
| GpuCommands.PictureReachesDisplay | src/devices/virtio/devices/gpu.rs:654-941 | a picture in guest pages, described by five commands encoded field by field and carried by five chains of the control queue, is on the display after five rounds, its bytes those of the pages in order |
| GpuCommands.CodeReachesGuest | src/devices/virtio/devices/gpu.rs:63-71 | after a command the response buffer holds its code and twenty zeros |
| GpuCommands.DisplayReachesGuest | src/devices/virtio/devices/gpu.rs:678-684 | the display query is answered with one enabled display of the window's size at the origin and fifteen empty ones |
| GpuCommands.CursorCodeReachesGuest | src/devices/virtio/devices/gpu.rs:942-976 | on the cursor queue moving and querying are answered OK, everything else as unsupported |
| GpuDevice.ServeControlKeepsInv | src/devices/virtio/devices/gpu.rs:656-939 | any head of the control queue, malformed chains included, keeps the invariant |
| GpuDevice.VirtioGpu.Reset | src/devices/virtio/devices/gpu.rs:997-1001 | no resources, every scanout dark, invariant kept |
| GpuDevice.VirtioGpu.UnrefCmd | src/devices/virtio/devices/gpu.rs:720-738 | the resource is gone and the in-place sweep darkens exactly the scanouts that named it |
| GpuDevice.VirtioGpu.FlushCmd | src/devices/virtio/devices/gpu.rs:772-800 | one blit for each scanout bound to the resource, in order |
| GpuDevice.VirtioGpu.Handle | src/devices/virtio/devices/gpu.rs:676-921 | dispatch on the command code computes the state machine's step and keeps its invariant |
| GpuDevice.VirtioGpu.Reply | src/devices/virtio/devices/gpu.rs:63-71 | the response is written whole or, where it does not fit or may not be written, not at all |
| GpuDevice.VirtioGpu.ControlHead | src/devices/virtio/devices/gpu.rs:656-939 | gather, execute, answer and push for one head; the head is pushed on every path |
| GpuDevice.VirtioGpu.ControlTick | src/devices/virtio/devices/gpu.rs:654-941 | for any number of rounds: state as by the state machine, invariant kept, memory and queue as after a run of turns that stops early only with nothing pending |
| GpuDevice.ControlRetires | src/devices/virtio/devices/gpu.rs:656-940 | whatever the chain, the control loop takes heads in order and returns each |
| GpuDevice.VirtioGpu.CursorTick | src/devices/virtio/devices/gpu.rs:942-976 | for any number of rounds: known cursor commands answered, memory and queue as after a run of turns that stops early only with nothing pending |
| GpuDevice.CursorRetires | src/devices/virtio/devices/gpu.rs:945-975 | the cursor loop takes heads in order and returns each, malformed chains included |
| NetDevice.NetVirtio.TickRx | src/devices/virtio/devices/net.rs:67-95 | frames are processed until the tap or the guest's buffers run out, one turn for each; work is reported if and only if a frame was delivered |
| NetDevice.RxRetires | src/devices/virtio/devices/net.rs:67-95 | a receive tick takes heads in order and returns each, one for every frame processed, with 12 plus the frame's length, or 0 for a frame that did not fit |
| NetDevice.TickDelivers | src/devices/virtio/devices/net.rs:74-93 | with the waiting buffers in RAM and apart from one another, the rings and the descriptors: a tick processes min(frames, buffers), the i-th frame meets the i-th waiting buffer, and at the end of the whole tick every buffer whose frame fitted holds twelve zeros and that frame |
| NetDevice.RxSettles | src/devices/virtio/devices/net.rs:74-93 | with the waiting buffers placed so and a frame for each, a receive tick takes all of them, answers each at its own place and leaves nothing pending |
| NetDevice.TickReads | src/devices/virtio/devices/net.rs:74-93 | memory apart from the waiting buffers and the used ring comes through a tick unchanged |
| NetDevice.NetVirtio.TickTx | src/devices/virtio/devices/net.rs:96-122 | for any number of rounds: each buffer without its 12-byte header is handed to the tap, shorter ones are skipped, memory and queue as after a run of turns |
| NetDevice.TxRetires | src/devices/virtio/devices/net.rs:103-119 | the transmit loop takes heads in order and returns each, and touches nothing else |
| NetDevice.TxSettles | src/devices/virtio/devices/net.rs:103-119 | with rounds enough it takes exactly what was due, answers each head at its own place and leaves nothing pending; with the used ring clear of buffers and descriptors each head comes back with its buffer's length, or 0 for one shorter than 12 bytes |
| NetDevice.TxSends | src/devices/virtio/devices/net.rs:103-119 | with the used ring clear of the waiting buffers and descriptors: what is handed to the tap is, in ring order, for each waiting buffer of at least 12 bytes its bytes from 12 on as memory was before the tick, and nothing for shorter ones |
| NetDevice.HeaderIsDropped | src/devices/virtio/devices/net.rs:107-115 | a buffer of twelve zeros and a frame sends exactly that frame |
| NetDevice.TickConserves | src/devices/virtio/devices/net.rs:67-95 | processed frames followed by those still queued are the same before and after a tick |
| NetDevice.RunsConserveFrames | src/devices/virtio/devices/net.rs:67-138 | over every sequence of arrivals, ticks, resets and guest writes: arrivals since the last reset = processed ++ still queued |
| FsDevice.EnvelopeReadsBack | src/devices/virtio/devices/fs.rs:152-171 | the client recovers total length, error and its own request tag from the reply, payload behind them |
| FsDevice.ReplyCarriesTag | src/platform/shared_folder/fuse/header.rs:17-34 | the reply to a request carries the tag the guest wrote behind length and operation, whatever the answer |
| FsDevice.ShortRequestTag | src/platform/shared_folder/fuse/util.rs:3-25 | a request cut short before the end of its tag is answered under tag 0 |
| FsDevice.Serve | src/devices/virtio/devices/fs.rs:131-177 | one head of either queue on which the device comes back: answered on the request queue only, pushed on both |
| FsDevice.Tick | src/devices/virtio/devices/fs.rs:118-183 | for any number of rounds: memory and queue as after a run of turns, every request answered, short headers included; other queues are left alone |
| FsDevice.FsRetires | src/devices/virtio/devices/fs.rs:131-177 | both loops take heads in order and return each |
| FsDevice.HiprioReturnsIff | src/devices/virtio/devices/fs.rs:131-144 | on the high-priority queue the device comes back from a head if and only if some descriptor is writable or links no further |
| FsDevice.RequestReturnsIff | src/devices/virtio/devices/fs.rs:148-177 | on the request queue, on every chain, if and only if in addition laying the reply ends within that bound |
| FsDevice.RequestReturnsIfRoom | src/devices/virtio/devices/fs.rs:148-177 | where the buffers spare the descriptors, that is when the chain ends or has room for the reply |
| FsDevice.SelfLinkNeverReturns | src/devices/virtio/devices/fs.rs:60-72 | a readable descriptor linked to itself is taken and never returned |
| FsDevice.AnswerReachesGuest | src/devices/virtio/devices/fs.rs:148-175 | after a step on the request queue the chain's writable buffers hold as much of the enveloped answer as there was room for, then what they held before |
| FsDevice.FsSettles | src/devices/virtio/devices/fs.rs:131-177 | with chains clear of the rings and rounds enough, a tick takes exactly what was due, answers each head at its own place and leaves nothing pending |
| Mmio.MMIOTransport.ReadInterruptStatus | src/devices/virtio/transports/mmio.rs:96-103 | returns the pending bits, clears them, and lowers the line if there were any |
| Mmio.MMIOTransport.Write | src/devices/virtio/transports/mmio.rs:119-229 | register file and queued commands after any write, out-of-range queue numbers and unknown registers included; the selected queue always exists; writes to the configuration space leave the transport alone |
| Mmio.MMIOTransport.WriteData | src/devices/virtio/transports/mmio.rs:15-19 | data of one to four bytes acts as its zero-padded little-endian value, first byte and first two bytes included |
| Mmio.MMIOTransport.Tick | src/devices/virtio/transports/mmio.rs:238-262 | every ready queue is ticked once, and a command is queued only on the edge to pending, whatever the device does; what the devices do is DeviceRuns.EventIsAccess |
| Mmio.AckClears | src/devices/virtio/transports/mmio.rs:169-175 | of the pending bits exactly those written are cleared, nothing else changes, and one command lowers the line if and only if every pending bit was written |
| Mmio.SetUsedBit | src/devices/virtio/transports/mmio.rs:164 | reporting work sets bit 0 and no other |
| Mmio.NotifyLocal | src/devices/virtio/transports/mmio.rs:155-168 | a notification ticks the named queue and no other, if it is ready; work sets bit 0 and raises the line |
| Mmio.TickReports | src/devices/virtio/transports/mmio.rs:238-262 | nothing happens before bit 2 of the status; then every ready queue is ticked and no other, work on any of them or an update sets bit 0, and the line is raised if and only if nothing was pending |
| Mmio.QueueWriteLocal | src/devices/virtio/transports/mmio.rs:147-154 | the queue registers reach the selected queue and nothing else; size is the low 16 bits, and a first ready restarts the available index |
| Mmio.AddressWrites | src/devices/virtio/transports/mmio.rs:193-222 | the two halves of each ring address, written in either order, set that address of the selected queue and nothing else |
| Mmio.SelectAndReset | src/devices/virtio/transports/mmio.rs:141-146 | an out-of-range selection keeps the old one; status 0 clears every queue and register and lowers the line |
| Interrupts.AccessAgrees | src/devices/virtio/transports/mmio.rs:69-262 | so does every access of the transport |
| Interrupts.StepAgrees | src/vm/tick.rs:45-55 | every step of the system extends the history by what it emits and keeps agreement |
| Interrupts.LineFollowsStatus | src/vm/tick.rs:45-55 | in every run, devices without a transport included: applied, taken and queued commands join to the history, and a line driven by one transport alone is high there if and only if its interrupt status is non-zero; once drained, the real line agrees |
| Interrupts.AckLowersLine | src/devices/virtio/transports/mmio.rs:169-175 | after every run, acknowledging what is pending clears the status and brings the line down |
| Interrupts.LineAgreesIff | src/vm/tick.rs:45-55 | line and interrupt status agree in every run, with devices that do nothing on a queue of size 0, if and only if nothing else drives the line |
| Interrupts.SharedLineFails | src/devices/virtio/transports/mmio.rs:169-175 | from any start, with a shared line, five register writes and one head served leave an interrupt pending and the line low |
| Interrupts.ForeignLineFails | src/devices/serial.rs:208-215 | a line that a device without a transport drives too can be high with nothing pending |
| Interrupts.Lines.Drain | src/vm/tick.rs:45-55 | all queued commands are applied, in order, exactly once |
| Interrupts.SyncedUnlessRestarted | src/devices/virtio/transports/mmio.rs:148-154 | an access keeps the two indices of every ready queue equal if and only if it does not make a used queue ready again |
| DeviceRuns.TickRetires | src/devices/virtio/virtio.rs:264-301 | every tick of every device, on whichever queue, is a run of turns and moves both indices of the queue by their number |
| DeviceRuns.NothingToDo | src/devices/virtio/virtio.rs:264-267 | on a queue of size 0 no device takes, changes or reports anything |
| DeviceRuns.ResetClears | src/devices/virtio/transports/mmio.rs:176-192 | status 0 clears every queue and the interrupt, the GPU's resources and scanouts and the frames not yet delivered, and leaves disk, shared folder and memory alone |
| DeviceRuns.EventIsAccess | src/devices/virtio/transports/mmio.rs:155-168 | what notifications and background sweeps really do to a transport, with the device behind it, is what its own model allows |
| DeviceRuns.NotificationRaises | src/devices/virtio/transports/mmio.rs:155-168 | on a GPU with a chain pending, the notification of such a run really serves one head and reports work |
| DeviceRuns.RunsStaySynced | src/devices/virtio/transports/mmio.rs:148-154 | over every run of a device behind its transport, whatever the guest does to memory, if no queue is made ready twice without a reset the two indices of every queue agree between events |
| DeviceRuns.NewRunsStaySynced | src/devices/virtio/transports/mmio.rs:42-57 | the same from a new transport, asking nothing but that discipline of the driver's own register writes |
| DeviceRuns.RestartFails | src/devices/virtio/transports/mmio.rs:148-154 | a new transport before a block device, one head published: set up, ready, served, not ready, ready, and the two indices of the queue are 0 and 1 |
| Heap.FirmwareHeap.InitHeap | guest/firmware/mem/heap.c:19-24 | any range is taken, and the heap is valid if and only if it starts above 0 and not past its end |
| Heap.ZeroStartLosesBlock | guest/firmware/mem/heap.c:26-32 | in a heap that starts at 0 the first block, once freed, is in no list |
| Heap.EmptyRangeGivesNothing | guest/firmware/mem/heap.c:51-53 | a range that starts past its end gives nothing out as long as the sum does not wrap |
| Heap.FirmwareHeap.Free | guest/firmware/mem/heap.c:26-32 | a live block moves to the front of the linked free list; null does nothing |
| Heap.FirmwareHeap.FindFit | guest/firmware/mem/heap.c:40-49 | the pointer walk stops at the first free block large enough, or at the end |
| Heap.FirmwareHeap.Malloc | guest/firmware/mem/heap.c:34-58 | unlinking and bumping in place compute the abstract allocation, and the invariant survives every safe request |
| Heap.LiveBlocksDisjoint | guest/firmware/mem/heap.c:34-58 | live allocations never overlap |
| Heap.MallocSafeIffInv | guest/firmware/mem/heap.c:34-58 | a call keeps the invariant if and only if its 64-bit sums do not wrap |
| Heap.ModestRequestsAreSafe | guest/firmware/mem/heap.c:34-58 | every request with size + 23 + heap end below 2^64 is safe |
| Heap.HugeRequestSucceeds | guest/firmware/mem/heap.c:34-58 | a request of 2^64 - 16 bytes on an empty free list succeeds with a block of size 0 |
| Heap.MallocMeaning | guest/firmware/mem/heap.c:34-58 | null only when no free block fits and the bump space is exhausted; otherwise a fresh range inside the heap, disjoint from every live one, others untouched |
| Heap.FreeKeepsInv | guest/firmware/mem/heap.c:26-32 | freeing a live pointer, or null, keeps the invariant |
| Heap.RunsKeepInv | guest/firmware/mem/heap.c:19-58 | tiling, acyclic duplicate-free free list and partition into live and free hold after every disciplined run |
| Heap.RunsAreSafe | guest/firmware/mem/heap.c:19-58 | from a fresh heap, after every disciplined run, live allocations lie inside the heap and are pairwise disjoint |
| Fat32.BlkReadIsDriverRead | guest/firmware/disk/fat32.c:179-184 | the disk read the file system is modelled over is what the block driver does |
| Fat32.OpenedVolume | guest/firmware/disk/fat32.c:9-48 | a volume that opens has clusters of at least one sector, and its first cluster lies right behind the FATs |
| Fat32.OpenReadsBack | guest/firmware/disk/fat32.c:9-48 | opening recovers sectors per cluster, reserved sectors, data start and root cluster from a boot sector laid out field by field, and refuses other sector sizes and clusters of no sectors |
| Fat32.OpenNeedsDisk | guest/firmware/disk/fat32.c:11-15 | without a boot sector on the disk: an I/O error |
| Fat32.FatEntryOnDisk | guest/firmware/disk/fat32.c:50-65 | for every cluster number c: the four disk bytes at (first sector + reserved) * 512 + 4 * (c mod 2^30), without their top four bits, if and only if their sector is on the disk |
| Fat32.ReadClusterOnDisk | guest/firmware/disk/fat32.c:67-77 | a cluster on the disk is read as its own bytes |
| Fat32.ClusterToLbaExact | guest/firmware/disk/fat32.c:4-7 | cluster arithmetic is exact if and only if the sector lies in 32 bits |
| Fat32.ClusterWraps | guest/firmware/disk/fat32.c:4-7 | with 128 sectors to a cluster, cluster 2^25 + 2 lands on the sectors of cluster 2 |
| Fat32.RoundUpFits | guest/firmware/disk/fat32.c:177-184 | a rounded-up read never passes the cluster's own sectors |
| Fat32.ReadFile | guest/firmware/disk/fat32.c:158-210 | the first min(file size, buffer size) bytes of the chain, or an I/O error, or a refusal of directories; up to the next multiple of 512 the buffer holds what follows in the chain, and nothing beyond is touched; ends on every FAT |
| Fat32.ReadChain | guest/firmware/disk/fat32.c:175-209 | the cluster loop fills the buffer with the chain's bytes in whole sectors and reports success if and only if there are enough |
| Fat32.FileRounds | guest/firmware/disk/fat32.c:175-209 | the file's bytes are the front of its whole sectors, and neither can be read without the other |
| Fat32.OverrunIff | guest/firmware/disk/fat32.c:177-184 | bytes past the caller's buffer size are written if and only if the clamped length ends in the buffer's last, partial sector |
| Fat32.FileIsChainPrefix | guest/firmware/disk/fat32.c:175-209 | on a chain long enough, those bytes are the prefix of its joined clusters |
| Fat32.ShortChainFails | guest/firmware/disk/fat32.c:175-209 | a chain that ends early gives an I/O error |
| Fat32.ChainIsRead | guest/firmware/disk/fat32.c:175-209 | the reader follows a chain given by the disk's own FAT bytes, cyclic or not, and joins its clusters' own bytes |
| Fat32.FileOnDisk | guest/firmware/disk/fat32.c:175-209 | along a chain on the disk, the file is the front of the clusters' own bytes as far as they go, and an error beyond the entry that marks the end |
| FatDir.DirReader.LoadCluster | guest/firmware/disk/fat32.c:67-81 | any cluster, on any chain: the reader stands before its entries, or nothing changed |
| FatDir.DirReader.NextDirEntry | guest/firmware/disk/fat32.c:212-245 | the next entry to show, across cluster boundaries, or the status that ends the search, and where the reader then stands, on every chain on which the search ends |
| FatDir.ScanIsNext | guest/firmware/disk/fat32.c:212-245 | where the listing ends, a call finds the first visible entry and leaves the reader before the others, or returns the status the listing ends with; the chain may be cyclic behind the end marker |
| FatDir.ScanInTime | guest/firmware/disk/fat32.c:215-244 | on every chain a call returns within 2^32 clusters, or never |
| FatDir.SilentLoopHangs | guest/firmware/disk/fat32.c:233-244 | a cluster chained to itself with nothing to show and no end marker: a call never returns |
| FatDir.DirReader.ListAll | guest/firmware/disk/fat32.c:212-245 | repeated calls return every visible entry, once, in chain order |
| FatDir.DirOnDisk | guest/firmware/disk/fat32.c:212-245 | along a chain on the disk that ends, or meets an end marker, what a listing meets is what the clusters' own bytes hold |
| FatDir.DirReader.ListDir | guest/firmware/disk/fat32.c:67-245 | opening a directory and calling until the status changes lists the entries of the chain's own disk bytes before the end marker that are neither part of a long name nor, where `char` is unsigned, deleted |
| FatDir.VisibleIsShown | guest/firmware/disk/fat32.c:215-231 | visible entries are those before the first zero name byte that pass both filters |
| FatDir.DeletedShownIffSigned | guest/firmware/disk/fat32.c:223 | a listing shows deleted entries if and only if `char` is signed and the directory has some |
| PeLoader.ApplyBlock | guest/firmware/disk/format_PE.c:43-62 | one block patches exactly its slots, in place, while it is being read |
| PeLoader.ApplyRelocations | guest/firmware/disk/format_PE.c:15-66 | the block walk, reading the table from the image it is patching, patches the slots of the table as it was loaded |
| PeLoader.TableSlotsAre | guest/firmware/disk/format_PE.c:37-65 | a table laid out as page, size and words of kind and offset, up to its end or a short block, names exactly the page plus offset of its fixups of kind 10, in order |
| PeLoader.PatchedOther | guest/firmware/disk/format_PE.c:43-62 | bytes outside the slots are unchanged |
| PeLoader.PatchedSlot | guest/firmware/disk/format_PE.c:43-62 | each of pairwise disjoint slots moves by exactly the load offset modulo 2^64 |
| PeLoader.RelocationKeepsMeaning | guest/firmware/disk/format_PE.c:15-66 | a slot that held ImageBase + rva holds load base + rva |
| PeLoader.LoadSections | guest/firmware/disk/format_PE.c:105-118 | the section loop places them in order |
| PeLoader.SectionInPlace | guest/firmware/disk/format_PE.c:105-118 | disjoint sections end up complete, whatever was loaded before or after |
| PeLoader.LoadedOther | guest/firmware/disk/format_PE.c:105-118 | bytes outside all sections are unchanged |
| PeLoader.FormatPe | guest/firmware/disk/format_PE.c:68-127 | accepted by DOS magic, NT signature, PE32+ magic and subsystem alone; then headers, sections, relocations and the new image base are in place, the base in the file's own header too; otherwise nothing is written |
| PeLoader.HeadersReadBack | guest/firmware/disk/format_PE.c:68-103 | from a file laid out field by field the loader reads that header and those sections, and accepts it if and only if the two signatures, the magic number and the subsystem are right |
| PeLoader.HeaderRebased | guest/firmware/disk/format_PE.c:123-127 | the new base in the file's header changes no other field the loader reads |
| PeLoader.ImageRebased | guest/firmware/disk/format_PE.c:126 | the loaded header carries the load base |
| PeLoader.LoadedPointersMove | guest/firmware/disk/format_PE.c:68-127 | a pointer that the file's own relocation table lists as kind 10 and that held ImageBase + rva holds 0x1200000 + rva in the loaded image |
| PeLoader.LoadedBytesStay | guest/firmware/disk/format_PE.c:68-127 | bytes of a section apart from every listed pointer and from the base field are the file's |
| PeLoader.LoadedUnmoved | guest/firmware/disk/format_PE.c:19-29 | without a relocation directory, or with an empty one, all of them are |
| Paging.ClearTables | guest/firmware/headers/paging.h:52-65 | all twelve tables are zero |
| Paging.MapRam | guest/firmware/headers/paging.h:84-95 | the first GiB entries point to their directories, the rest stay absent |
| Paging.PagingInit | guest/firmware/headers/paging.h:37-105 | from any memory contents, the complete table set |
| Paging.WalkBuilt | guest/firmware/headers/paging.h:37-105 | the four-level walk is the identity below the mapped GiB, maps the top 2 MiB to 0x400000000, and faults for every other 48-bit address |
| Paging.MappedGbExact | guest/firmware/headers/paging.h:71-78 | the GiB count is RAM rounded up, between 1 and 8, if and only if the 64-bit sum and the cut to 32 bits do no harm |
| Paging.HugeRamMapsOneGb | guest/firmware/headers/paging.h:71-78 | 2^62 - 2^30 + 1 bytes of RAM map one GiB instead of eight, and that is the smallest size for which the count is wrong |
| SlotCarving.CarveHole | src/vm/builder.rs:241-256 | carving keeps segments sorted, non-empty and disjoint and removes exactly the hole |
| SlotCarving.Carve | src/vm/builder.rs:234-256 | for any region and any list of holes: exact set difference |
| SlotCarving.RegisterSlots | src/vm/builder.rs:227-270 | guest addresses with RAM behind them are the region minus both APIC holes, each in one slot, and one linear offset serves all slots |
| MemoryMap.InitMemmap | guest/firmware/mem/memmap.c:8-21 | the announced entries, at most 32, are stored; without the magic number nothing is |
| MemoryMap.RamTop | guest/firmware/headers/memmap.h:35-48 | the largest end of a conventional entry, or 0 if there is none |
| MemoryMap.RoundTrip | src/machine_config/mem_map.rs:24-50 | the guest parser recovers every entry the host serialised, whatever bytes follow, and looks at the first 32 |
| MemoryMap.MemmapToUefi | guest/firmware/mem/memmap.c:23-66 | the buffer's front holds the converted entries in order, as many as were looked at, and the rest of it is untouched |
| MemoryMap.ConvertedExact | guest/firmware/mem/memmap.c:35-49 | a descriptor covers exactly the whole pages of its entry if and only if rounding the start does not wrap |
| MemoryMap.TopEntryCoversPageZero | guest/firmware/mem/memmap.c:35-40 | an entry in the last page of the address space comes out as a descriptor from page 0 on |
| MemoryMap.ConvertedRoundsIn | guest/firmware/mem/memmap.c:35-60 | start rounded up, end rounded down, type kept; types 5 and 6, and only they, carry the runtime attribute; entries without a whole page vanish |
| MemoryMap.ConvertedSorted | guest/firmware/mem/memmap.c:31-63 | sorted disjoint entries give sorted disjoint descriptors |
| MemoryMap.ConvertedAllExact | guest/firmware/mem/memmap.c:31-63 | a page is covered if and only if it is a whole page of some entry |
| MemoryMap.MapTrip | guest/firmware/mem/memmap.c:8-66 | from the host's list through memory to the firmware: the descriptors are those of the list, cover exactly its whole pages and stay sorted, and the top of RAM is the list's own |
| DirPaging.ReadDir | src/platform/shared_folder/dir.rs:33-88 | skip the offset, then whole records until one does not fit; a multiple of eight bytes and never more than asked for |
| DirPaging.ParseRecord | src/platform/shared_folder/dir.rs:67-82 | a packed record parses back to its entry and resume offset, padding consumed |
| DirPaging.ParseRecords | src/platform/shared_folder/dir.rs:67-82 | so does any run of records |
| DirPaging.PageIsFull | src/platform/shared_folder/dir.rs:67-73 | a page holds as many records as fit: it ends with the listing, or before a record that would pass the limit |
| DirPaging.PageAdvances | src/platform/shared_folder/dir.rs:68-73 | a page with room for its first record makes progress |
| DirPaging.ListWhole | src/platform/shared_folder/dir.rs:33-88 | resuming at the last offset returned, with pages of any sizes that hold the largest record, lists every entry once, in order |

## Left out

- KVM, vCPU set-up, `mmap`, threads and locks: foreign calls; sections under a lock are single steps, and memory is taken to be sequentially consistent.
- SDL, the terminal, the TAP descriptor, nftables and the host file system: I/O; they appear as a blit log, a frame queue, a disk image with a size limit and an arbitrary answering function.
- Console, random-number, counter, CMOS, PIT and PCI devices, address-range dispatch: a branch or two each.
- Transport registers that only report constants, feature bits and the device configuration space from offset 0x100: they change nothing.
- A transport without an interrupt handler: it queues no commands; the model has one attached.
- Several RAM regions: the model has one, and accesses are meant to lie inside it.
- Builds with overflow checks: the sector scaling that wraps here would panic there.
- Byte order within one 16- or 32-bit access as seen by the other side: each access is one step.
- GPT, `read_file_offset`, path lookup, `efi_AllocatePages` and the UEFI tables: data tables, or code with no record of its own to be right about.
- Driver-side virtio for the network, random-number and counter devices: they repeat the block driver's pattern.
- GPU capability and configuration fields, EDID: constant answers.
- ControlTick: takes the number of rounds, since a guest that keeps publishing keeps the source's loop going; holds for every number, and LoopEnds says how many there are when nobody publishes.
- CursorTick: takes the number of rounds, for the same reason.
- TickTx: takes the number of rounds, for the same reason; the source ignores whether the host could send a frame, so `sent` is what was handed over.
- Tick: of the shared-folder device takes the number of rounds and needs the device to come back from every head it takes, which is exactly when the source's loop does; what the file system behind it answers is arbitrary.
- WriteOutReply: needs the walk to end, which LaidInTime decides for every chain.
- Write: the feature hook of the device does nothing on any device of the repository, and what a configuration write does inside the GPU is left out.
- WriteData: data longer than four bytes, or one byte for the queue size, makes the source panic.
- Transfer: of the driver needs its buffer and status byte in RAM, apart from each other and from the driver's structures; a device tick is one step.
- ReadBackingRange: pages outside RAM read as zeros; exactness is stated for pages inside it.
- Free: needs a live pointer or null; the source cannot tell others apart.
- ReadFile: needs a buffer for the last sector rounded up, because the source writes that much.
- LoadCluster: needs the 32768-byte cluster buffer to hold a cluster; the source does not compare the two.
- NextDirEntry: needs the search to end, which ScanInTime decides for every chain.
- ListAll: needs a listing that ends: a chain that stops or breaks, or an end marker; on a cyclic chain without one the entries come round for ever.
- ListDir: needs every cluster of the chain whole on the disk, at sector numbers of 32 bits and positions below 2^63; other chains are the business of NextDirEntry and ListAll. FileOnDisk asks the same, FileIsChainPrefix and ShortChainFails do not.
- ApplyRelocations: needs table and slots inside the image and slots clear of the table; the source checks neither.
- FormatPe: needs headers and sections inside the file and the image, which the source does not check; file and image are separate memory. Start of the loaded program is left out.
- HeaderRebased: needs the NT headers behind the DOS header and an optional header of at least 32 bytes; otherwise the base field overlaps fields the loader has already read.
- PagingInit: loading CR3 is left out.
- RegisterSlots: needs a non-empty region.
- MemmapToUefi: needs the table to hold the entries looked at, since the announced length is not limited to 32.
- ListWhole: names shorter than 2^32 bytes and a listing that does not change between pages.
