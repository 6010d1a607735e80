# A Dafny model of the kernel's algorithmic cores

The kernel is a bare-metal system with a FAT32 driver, a TCP stack, a heap, a scheduler, page tables and a
few smaller cores. This project models those cores and proves what they are for. `dafny verify dfyconfig.toml`
checks all of it.

Objects that the source changes in place are classes, proved against functions on their value; what the source
promises is then proved about those functions, for all inputs, all runs or all interleavings. Where a function only
says what the code computes, laws in plain numbers say what that is, without referring to it. Machine words wrap where
the source's do; time is an unbounded number given to each call.

## What is modelled

* **FAT32** (`Fat*.dfy`). `FatVolume` is the disk with its one-sector write-back cache; above it a volume is one
  table and the contents of clusters. `FatChains`, `FatFiles`, `FatSlots`, `FatNames` and `FatDirs` are the layers of
  the driver. `FatTree` states exact ownership: chains are acyclic and disjoint and use up every allocated entry, and
  each chain but the root's is named by exactly one directory slot. `FatOps`, `FatMake`, `FatMove` and `FatStore`
  prove that create, unlink, rmdir, mkdir, rename and write keep it, on success and on failure. `FatSpec` specifies
  the commands of a client on a map from places to names, attributes and bytes, without any disk; `FatView` reads that
  map off a volume, and `FatRuns` proves that every session of the driver is a run of the commands on the map.
  `FatRooted` says when everything stays reachable from the root, and `FatLost` when a volume can still be read as a
  sound one at all. `FatBytes` says what the bytes on the disk mean, in plain numbers.
  Assumed of a volume: two FAT copies that agree; chains end in 0x0FFFFFFF; table slots past the last data cluster are
  not zero; no long-name slots; sector I/O and buffer allocation succeed; offset plus size fits 32 bits; one live
  handle per file.
* **TCP** (`Tcp`, `TcpLaws`, `TcpSafety`). One socket, what it does with every segment and every tick, and two sockets
  over a network that loses, repeats, delays and reorders.
  The kernel opens connections but never accepts one, so the peer starts where a server stands after the handshake.
* **Heap** (`HeapLaws`, `HeapMemory`): headers linked in memory, and the list of blocks they represent. The region
  lies past the first 16 bytes of memory, so that sums of sizes do not wrap.
* **Scheduler, mutex, semaphore** (`Scheduler`, `SchedulerLaws`, `Mutex`, `Semaphores`).
* **Rasterisers** (`Raster`): lines and circles, down to the exact set of pixels.
* **Paging and the page bitmap** (`Paging`, `Frames`), **the expression evaluator** (`Evaluator`), **DNS names**
  (`Dns`, `DnsPointers`, `DnsAnswers`, `DnsWire`), **pipes and the packet queue** (`Pipes`, `NetQueue`, over `Rings`),
  **the RAM file system's paths** (`Vfs`, `VfsLaws`).

Some properties one would expect do not hold of the code. Each is shown with the exact condition or with a run:

* A name that `make_83` turns into a deleted or dot slot (its first byte 0xE5, or "." or "..") makes `fat32_mkdir`
  leave a cluster allocated that no slot names, and `fat32_rename` lose a nonempty file. A volume in which everything
  was reachable can then not be read as a sound one in any way, if and only if the name is such a one, or a rename
  moves a directory below itself (`FatMake.Mkdir`, `FatMove.Rename`).
* A created file is found under its name if and only if the name fits 8.3 without spaces (`FatOps.Create`).
* A retransmission that cannot be handed to the network card leaves `snd_nxt` moved back, and the peer then
  delivers a stream with a hole in it (`TcpSafety.UnsafeRewind`). `snd_nxt` stays in its place if and only if the
  segment is sent, or carries nothing, or it was the last try (`TcpSafety.ResendExact`); safety is proved for all runs
  in which an end that failed sends nothing new until a retransmission is sent. If the segment was the first
  unacknowledged one, there is no other try (`TcpSafety.Forgotten`).
* `kmalloc` and `krealloc` round requests above 0xFFFFFFF8 to zero, and the block is then too small; for all other
  requests it is large enough (`HeapLaws.LargeEnough`, `HeapMemory.KernelHeap.Krealloc`).
* The mutex lets a holder lock again but does not count how often, so the first of two unlocks frees it. If callers
  only balance their calls, it excludes if and only if there is at most one process (`Mutex.NestedExclusion`). If no
  process unlocks from within a nested lock, or none locks again, it excludes if and only if process ids differ and
  none is 0xFFFFFFFF, or there is one process (`Mutex.MutualExclusion`). Kernel and user processes are numbered by
  separate counters.
* The page counter is right after `pmm_init` if and only if the kernel ends past the 256 reserved pages and not in a
  last bitmap byte that is not full; or past all of memory, if there is no such byte or it is reserved
  (`Frames.Bitmap.constructor`).
* `paging_map_region` and `paging_alloc_region` map as many pages as cover the size, except for sizes above 0xFFFFF000,
  for which they map nothing, the latter with success (`Paging.PagesCover`).
* The current directory's path is whole if and only if it has at most 63 names (`VfsLaws.WholeExactly`); it then leads
  back to the directory if and only if the names on the way have 1 to 63 bytes, no slash, and are not "." or ".."
  (`Vfs.PathRoundTrip`).
* A DNS name comes back from its encoding if and only if its labels have 1 to 63 bytes and no dot ends it
  (`Dns.NameRoundTrip`).
* A sleeper is woken early if and only if it is blocked and unblocked meanwhile (`Scheduler.WakesEarly`).

## Model

| member | source | states |
|---|---|---|
| FatVolume.StoreThenLoad | kernel/fat32.cpp:100-118 | Storing a 28-bit entry is read back, keeps the sector's other entries and every entry's reserved top four bits |
| FatVolume.LbaOfIsProduct | kernel/fat32.cpp:75-77 | Where a cluster starts is the product the driver computes |
| FatVolume.ClustersApart | kernel/fat32.cpp:75-77 | Sectors of different clusters do not overlap |
| FatVolume.Volume.constructor | kernel/fat32.cpp:241-279 | A disk whose two FAT copies agree represents a table and cluster contents; the cache starts out clean and empty |
| FatVolume.Volume.FlushCache | kernel/fat32.cpp:79-84 | The disk becomes what disk and cache together stood for |
| FatVolume.Volume.ReadSector | kernel/fat32.cpp:86-92 | The cache holds the sector as last written, and no write is lost when another sector is evicted |
| FatVolume.Volume.FatGet | kernel/fat32.cpp:94-105 | The entry of the abstract table, whichever sector the cache held |
| FatVolume.Volume.FatSet | kernel/fat32.cpp:107-123 | Exactly one table entry changes, in both copies; reserved bits of both copies and all clusters stay |
| FatVolume.Volume.ClusterRead | kernel/fat32.cpp:144-151 | The cluster's contents |
| FatVolume.Volume.ClusterWrite | kernel/fat32.cpp:153-160 | One cluster's contents change; the table and every other cluster stay |
| FatChains.ChainDistinct | kernel/fat32.cpp:136-142 | A chain that reaches the end mark is acyclic |
| FatChains.SharedTail | kernel/fat32.cpp:136-142 | Two chains that share a cluster share everything after it |
| FatChains.ContentSplice | kernel/fat32.cpp:496-509 | Editing one cluster edits the file's bytes at the corresponding place and nowhere else |
| FatFiles.AllocCluster | kernel/fat32.cpp:125-134 | The first free cluster, marked as a chain of its own; 0 exactly when none is free |
| FatFiles.FreeChain | kernel/fat32.cpp:136-142 | Terminates on every table whose links stay among the volume's clusters, cyclic ones included, and zeroes exactly the entries the walk visits |
| FatFiles.ReleasedChain | kernel/fat32.cpp:136-142 | On a chain, exactly the chain is zeroed |
| FatFiles.NextOrGrow | kernel/fat32.cpp:481-489 | The next cluster, or a free one appended to the chain; 0 only at the end of the chain of a full volume |
| FatFiles.UpdateDirEntry | kernel/fat32.cpp:534-559 | Cluster and size of exactly the addressed slot change, in whichever cluster of the directory it lies |
| FatFiles.MarkDeleted | kernel/fat32.cpp:689-707 | The first byte of exactly the addressed slot becomes 0xE5 |
| FatFiles.Read | kernel/fat32.cpp:420-455 | The file's bytes from the offset on, as many as asked for and as there are |
| FatFiles.Write | kernel/fat32.cpp:460-532 | The window holds the bytes written, the rest of the chain is as before, the size is the larger of old size and end, other clusters stay; a short count or an error only when no cluster is free |
| FatFiles.OtherFileKept | kernel/fat32.cpp:460-532 | Files on other chains keep their chain and their bytes, also when the write grows its chain |
| FatFiles.WriteThenRead | kernel/fat32.cpp:420-532 | Bytes written are the bytes read back; bytes outside the window keep their values |
| FatSlots.PatchSlotFields | kernel/fat32.cpp:551-554 | Patching a slot sets cluster and size and keeps name and attributes |
| FatSlots.NewSlotFields | kernel/fat32.cpp:577-592 | The fields of a new slot are read back |
| FatNames.ParseName | kernel/fat32.cpp:191-205 | The text a stored name is listed as |
| FatNames.MakeName | kernel/fat32.cpp:207-229 | The eleven bytes stored for a name, without a lower-case letter |
| FatNames.CompareNames | kernel/fat32.cpp:231-239 | True exactly if the texts are equal byte by byte or differ in the case of letters |
| FatNames.SameNameExact | kernel/fat32.cpp:231-239 | A search tells names apart exactly if they differ in more than the case of letters |
| FatNames.StoredFields | kernel/fat32.cpp:207-229 | What stands before the last dot goes to the first eight bytes in upper case, what stands behind it to the other three, cut or padded with spaces |
| FatNames.ShownText | kernel/fat32.cpp:191-205 | The text that padded fields are listed as |
| FatBytes.EntryWord | kernel/fat32.cpp:94-105 | A table entry is the 32-bit number at four times its index, low byte first, without its top four bits |
| FatBytes.EntryStored | kernel/fat32.cpp:107-123 | Storing an entry replaces 28 bits and keeps the reserved four, and every other byte of the sector |
| FatBytes.NewSlotWords | kernel/fat32.cpp:577-592 | The 32 bytes of a new slot |
| FatBytes.NewDirectoryBytes | kernel/fat32.cpp:652-673 | The bytes of a new directory: two dot slots with its own and its parent's cluster, and zeros |
| FatBytes.ListingExact | kernel/fat32.cpp:284-358 | Listing number i is the slot in use with i others in use before it, up to the first zero slot |
| FatBytes.SearchExact | kernel/fat32.cpp:360-372 | A search finds the first slot in use that is shown under the name, and nothing exactly if there is none |
| FatNames.NameRoundTrip | kernel/fat32.cpp:191-229 | A stored name is listed as the same name, up to case, exactly when it fits |
| FatNames.TwoDots | kernel/fat32.cpp:191-229 | A file created as ".." is listed as "." |
| FatDirs.ReadDir | kernel/fat32.cpp:284-358 | The entry with that listing number, over any number of clusters, up to the first zero slot |
| FatDirs.ListStep | kernel/fat32.cpp:360-372 | Listing entry by entry meets the slots that a search of the raw directory meets |
| FatDirs.Find | kernel/fat32.cpp:360-372 | The first slot whose name matches, up to case; not found exactly when none does |
| FatDirs.WriteDirEntry | kernel/fat32.cpp:561-619 | The first free slot, in a zeroed new cluster if the directory is full, holds the new entry; nothing else changes |
| FatTree.ExactOwnership | kernel/fat32.cpp:125-142 | A table entry is in use exactly when a chain owns it, and then one chain does |
| FatTree.ExactDetermines | kernel/fat32.cpp:94-142 | The chains determine every entry of the table |
| FatTree.TableDetermines | kernel/fat32.cpp:94-142 | The table determines the chains |
| FatTree.ExactGrown | kernel/fat32.cpp:481-489 | Growing a chain by free clusters keeps ownership exact |
| FatTree.ExactReleased | kernel/fat32.cpp:136-142 | Releasing an owned chain keeps ownership exact for the rest |
| FatTree.LinkedAdd | kernel/fat32.cpp:641-687 | A new slot names the new chain, and every other chain keeps its one slot |
| FatTree.LinkedDrop | kernel/fat32.cpp:689-731 | Deleting a slot takes away exactly one name |
| FatTree.LinkedMove | kernel/fat32.cpp:733-751 | Moving a name keeps one slot per chain |
| FatOps.Search | kernel/fat32.cpp:360-372 | On a sound volume the search changes nothing and finds the first match |
| FatOps.Unlink | kernel/fat32.cpp:709-714 | The file's chain and slot are gone, nothing else is; directories are refused |
| FatOps.ListsOnlyDots | kernel/fat32.cpp:720-727 | Succeeds exactly when the directory lists nothing but its dot entries |
| FatOps.Rmdir | kernel/fat32.cpp:716-731 | Removes exactly an empty directory; otherwise the disk is unchanged |
| FatOps.SearchFilled | kernel/fat32.cpp:360-372 | After a slot is entered every search finds an earlier match, the new slot, or what it found before |
| FatOps.CreatedIsFound | kernel/fat32.cpp:621-639 | A new entry is found under its name exactly when the name is storable and fits |
| FatOps.SearchIgnoresCase | kernel/fat32.cpp:231-239 | A search for a name in other letter case finds the same |
| FatOps.Create | kernel/fat32.cpp:621-639 | Enters a slot for an empty file that a search then finds at the handle's index, in any letter case; EXIST exactly when the name is there; otherwise nothing changes |
| FatMake.NewDirectorySlots | kernel/fat32.cpp:652-673 | A new directory lists its two dot entries only and names no chain |
| FatMake.Mkdir | kernel/fat32.cpp:641-687 | A free cluster becomes an empty directory named by one slot; on failure table and files are as before and at most one cluster is free; sound, and recoverable at all, exactly for storable names |
| FatMake.MakeThenRemove | kernel/fat32.cpp:641-731 | rmdir right after mkdir succeeds, and the table is as before, entry for entry, unless the parent took a cluster |
| FatMove.RenamedLinked | kernel/fat32.cpp:733-751 | Names stay exact if and only if the new slot names what the old one named |
| FatMove.Rename | kernel/fat32.cpp:733-751 | The chain is named by the new slot instead of the old one, in the same or another directory; other clusters stay; recoverable exactly for storable names and targets not below the moved directory |
| FatLost.Lost | kernel/fat32.cpp:360-372 | A chain that no slot of a known directory names is in no sound picture of the volume in which everything is reachable |
| FatLost.OnlyPicture | kernel/fat32.cpp:360-372 | If everything is reachable in one sound picture of the volume, it is the only one |
| FatStore.Store | kernel/fat32.cpp:460-532 | A write keeps ownership exact, names a chain that came into being, and keeps every other file and directory |
| FatRuns.EmptyVolume | kernel/fat32.cpp:241-279 | A volume with nothing but an empty root directory is sound, and nothing is seen on it |
| FatSpec.RunRooted | kernel/fat32.cpp:733-751 | All through a run everything is reachable, exactly if it was at first and no command moved a directory to itself or below itself |
| FatView.LookupMatches | kernel/fat32.cpp:360-372 | Looking up a name in the map finds what a search of the directory's slots finds |
| FatView.OneFileChanged | kernel/fat32.cpp:460-532 | Storing into one chain changes what is seen at the place of its slot only |
| FatView.EnteredView | kernel/fat32.cpp:561-619 | A slot entered in the first free place is one entry more, at a place where nothing was seen |
| FatView.DeletedView | kernel/fat32.cpp:689-731 | A slot deleted and its chain released are one entry less |
| FatView.MadeView | kernel/fat32.cpp:641-687 | A directory made is one entry more, and nothing is seen in it |
| FatView.MovedView | kernel/fat32.cpp:733-751 | A slot entered and the old one deleted move one entry, with its bytes |
| FatView.StoredView | kernel/fat32.cpp:460-532 | A write changes size and bytes of one entry and nothing else that is seen |
| FatView.RewrittenInfo | kernel/fat32.cpp:460-532 | The bytes seen afterwards are those written in the window and the old ones outside it, and no file becomes shorter than its entry says |
| FatRuns.OpenDirectory | kernel/fat32.cpp:360-372 | Going down a path by fat32_find arrives where the path leads on the map |
| FatRuns.Perform | kernel/fat32.cpp:360-751 | Each command has the outcome and the effect that its specification gives it on the map; a rename loses reachability exactly when it moves a directory to itself or below itself |
| FatRuns.Session | kernel/fat32.cpp:360-751 | Every session of create, mkdir, read, write, unlink, rmdir and rename keeps the volume sound, and is a run of the commands on the map; reachable throughout exactly when no directory is moved to itself or below itself |
| FatRooted.RenameRooted | kernel/fat32.cpp:733-751 | Everything stays reachable if and only if the target is not the moved directory or below it |
| Tcp.Socket.SendRaw | kernel/tcp.cpp:88-161 | The segment sent, the advance of snd_nxt and the retransmit slot; nothing on failure |
| Tcp.Socket.Retransmit | kernel/tcp.cpp:179-198 | Rewinds, resends the slot, doubles the timeout up to its cap, gives up after six times |
| Tcp.Socket.Tick | kernel/tcp.cpp:200-219 | Time-wait ends, and an expired slot is resent while something is unacknowledged |
| Tcp.Socket.Receive | kernel/tcp.cpp:221-356 | New state and replies for every state and segment |
| Tcp.Socket.TakePayload | kernel/tcp.cpp:289-298 | In-order payload is appended to the ring as far as it fits |
| Tcp.Socket.SendChunk | kernel/tcp.cpp:395-403 | One chunk is sent and kept for retransmission |
| Tcp.Socket.Recv | kernel/tcp.cpp:416-430 | The oldest bytes of the ring, in order, and the rest stays |
| Tcp.Socket.Close | kernel/tcp.cpp:448-456 | An open connection sends its FIN |
| TcpSafety.ResendKeeps | kernel/tcp.cpp:179-198 | A retransmission that is sent repeats a right segment and puts snd_nxt where it belongs |
| TcpSafety.ResendExact | kernel/tcp.cpp:179-198 | A retransmission keeps segments and slot right, and leaves snd_nxt in its place exactly if it is sent, or carries nothing, or is the last try |
| TcpSafety.Forgotten | kernel/tcp.cpp:179-219 | A failed retransmission of the first unacknowledged bytes is never repeated |
| TcpSafety.SenderKept | kernel/tcp.cpp:88-461 | If new bytes are sent only while snd_nxt is in its place, every segment sent carries the stream at its sequence number, and a pending slot ends where the next byte belongs |
| TcpSafety.TakenIsNext | kernel/tcp.cpp:288-338 | Bytes accepted in order are the next bytes of the peer's stream |
| TcpSafety.ReceiverKept | kernel/tcp.cpp:221-430 | What was taken in stays a prefix of what was sent, and rcv_nxt counts it until a FIN |
| TcpSafety.Safety | kernel/tcp.cpp:88-461 | For every interleaving over a lossy, duplicating, reordering network in which an end whose retransmission failed sends nothing new until one is sent, bytes received are a prefix of bytes sent |
| TcpSafety.UnsafeRewind | kernel/tcp.cpp:179-198 | A run in which an end sends on after a failed retransmission, and the peer delivers 1, 3 for 1, 2, 3 |
| TcpLaws.NewAck | kernel/tcp.cpp:260-269 | A new acknowledgement moves snd_una to it, and empties the slot and stops its timer exactly if it covers everything sent |
| TcpLaws.StaleAck | kernel/tcp.cpp:260-269 | An acknowledgement of nothing new, or of what was never sent, changes none of this |
| TcpLaws.AckedStaysQuiet | kernel/tcp.cpp:200-269 | Once everything sent is acknowledged, no tick of any run sends anything until something new is sent |
| TcpLaws.BytesArrive | kernel/tcp.cpp:288-333 | Bytes that continue the stream enter the ring as far as 8192 bytes leave room, and are acknowledged by number; others change nothing |
| TcpLaws.BytesRead | kernel/tcp.cpp:416-430 | As many of the oldest bytes as asked for and as there are |
| TcpLaws.ChunkSent | kernel/tcp.cpp:88-161 | The segment of a chunk, and the slot that keeps it for a second |
| TcpLaws.SentAgain | kernel/tcp.cpp:179-219 | An overdue segment is sent again after 1, 2, 4, 8, 16, 32 and 32 seconds; the seventh time the connection is dropped |
| TcpLaws.ConnectSends | kernel/tcp.cpp:88-161 | The SYN, which counts as one |
| TcpLaws.Opens | kernel/tcp.cpp:273-287 | The handshake's answer, and the reset for a wrong one |
| TcpLaws.Resets | kernel/tcp.cpp:249-258 | Resets received and sent |
| TcpLaws.CloseFrees | kernel/tcp.cpp:465-467 | tcp_close frees every socket but one in TIME_WAIT |
| TcpLaws.NextState | kernel/tcp.cpp:249-355 | The state after any segment but a reset, from every state |
| TcpLaws.FinCounts | kernel/tcp.cpp:288-353 | A FIN counts as one byte behind those taken, and starts the wait of four seconds |
| TcpLaws.CloseSends | kernel/tcp.cpp:448-465 | The FIN, which counts as one |
| TcpLaws.ClosesAfterPeer | kernel/tcp.cpp:309-338 | Acknowledgement and FIN lead to TIME_WAIT, which lasts four seconds |
| TcpLaws.PeerClosesFirst | kernel/tcp.cpp:301-344 | A FIN is acknowledged and answered, and the next acknowledgement frees the socket |
| HeapLaws.PayloadsDisjoint | kernel/heap.cpp:20-64 | Payloads lie in the region and do not overlap |
| HeapLaws.Conservation | kernel/heap.cpp:111-118 | Used bytes, free bytes and 20 per block make up the region |
| HeapLaws.TakeKeeps | kernel/heap.cpp:40-75 | Allocation keeps the tiling and leaves no two free neighbours |
| HeapLaws.HandedOut | kernel/heap.cpp:40-51 | The block handed out has less than 36 bytes more than asked for; what is left over becomes a free block behind it exactly if it is that much |
| HeapLaws.TakeUses | kernel/heap.cpp:66-75 | Allocation adds one block to those in use and its size to the sum |
| HeapLaws.ReleaseKeeps | kernel/heap.cpp:53-64 | Freeing keeps the tiling and leaves no two free neighbours |
| HeapLaws.ReleaseUses | kernel/heap.cpp:102-109 | Freeing takes exactly one block out of use |
| HeapLaws.ReleaseOfTake | kernel/heap.cpp:66-109 | kfree right after kmalloc restores the list of blocks |
| HeapLaws.FreeingAll | kernel/heap.cpp:102-109 | Freed in any order, the whole region is one free block again |
| HeapLaws.LargeEnough | kernel/heap.cpp:66-75 | The block is as large as requested exactly when rounding did not wrap |
| HeapLaws.WrappedRequest | kernel/heap.cpp:66-75 | A request for 4294967295 bytes is granted with an empty block |
| HeapMemory.SplitStored | kernel/heap.cpp:40-51 | The stores of a split give the headers of the split list |
| HeapMemory.JoinStored | kernel/heap.cpp:53-64 | The stores of a merger give the headers of the merged list |
| HeapMemory.OthersIntact | kernel/heap.cpp:84-100 | Moving a block leaves other payloads as they were |
| HeapMemory.KernelHeap.FindFree | kernel/heap.cpp:33-38 | The first block that is free and large enough, null if there is none |
| HeapMemory.KernelHeap.Kmalloc | kernel/heap.cpp:66-75 | First fit, split where worthwhile; null exactly when no free block fits the rounded size; large enough exactly when rounding did not wrap, and less than 36 bytes larger than the rounded size |
| HeapMemory.KernelHeap.Kfree | kernel/heap.cpp:102-109 | A used block is released and merged; a free one or null is left alone |
| HeapMemory.KernelHeap.Krealloc | kernel/heap.cpp:84-100 | Nothing, or a new block that starts with the old bytes in place of the old one; large enough exactly when rounding did not wrap |
| HeapMemory.KernelHeap.FreeBytes | kernel/heap.cpp:113-118 | The sum of free sizes, which with used_bytes and headers is the region |
| Scheduler.Kernel.FindNext | kernel/scheduler.cpp:200-215 | Sleepers that are due are woken, and the first ready slot after the current one is chosen |
| Scheduler.Kernel.DoSwitch | kernel/scheduler.cpp:182-198 | The states and slices after a switch |
| Scheduler.Kernel.Tick | kernel/scheduler.cpp:217-231 | Counts the tick and reschedules when the slice is over or the process cannot go on |
| Scheduler.Kernel.SleepFor | kernel/scheduler.cpp:164-169 | Sleeps until a tick computed in 32 bits, and yields |
| Scheduler.Kernel.Create | kernel/scheduler.cpp:54-94 | The first dead slot becomes ready; without one, or without a stack, states are unchanged |
| Scheduler.StepKeeps | kernel/scheduler.cpp:148-238 | At most one slot is running, and it is the current one |
| Scheduler.SwitchTarget | kernel/scheduler.cpp:182-215 | A switch goes to the first runnable slot, and there is none when no switch happens |
| Scheduler.SleeperWakes | kernel/scheduler.cpp:200-206 | In one step, a sleeper becomes ready only when its time has come |
| Scheduler.WakesEarly | kernel/scheduler.cpp:156-206 | Over runs, a sleeper is ready before its time exactly if it was blocked and then unblocked |
| Scheduler.FallsAsleep | kernel/scheduler.cpp:164-169 | process_sleep leaves the caller asleep with its time |
| Scheduler.SleepsThrough | kernel/scheduler.cpp:156-206 | Over runs, the caller of process_sleep is neither ready nor running before its time, unless it is blocked and unblocked |
| SchedulerLaws.RescheduleExact | kernel/scheduler.cpp:182-215 | What a rescheduling does to every slot |
| SchedulerLaws.NobodyLost | kernel/scheduler.cpp:182-215 | Who could run before a rescheduling still can |
| SchedulerLaws.SliceKept | kernel/scheduler.cpp:217-231 | Over runs, a running process that does not give way keeps the processor until the tenth tick of its slice |
| SchedulerLaws.TenthTick | kernel/scheduler.cpp:217-231 | The tenth tick takes the processor away, if another slot is ready |
| SchedulerLaws.OverdueWakes | kernel/scheduler.cpp:200-231 | An overdue sleeper is awake by the tenth tick, whatever else happens |
| SchedulerLaws.ExitEnds | kernel/scheduler.cpp:148-154 | process_exit ends the caller, and gives the processor to another process that can run |
| SchedulerLaws.StaysDead | kernel/scheduler.cpp:54-94 | Over runs, an ended process never runs again before one is created in its slot |
| SchedulerLaws.CreateExact | kernel/scheduler.cpp:54-94 | A new process is ready, with nothing counted, in the lowest slot without one |
| SchedulerLaws.SleepEnds | kernel/scheduler.cpp:164-169 | The length of a sleep in ticks |
| SchedulerLaws.TicksCounted | kernel/scheduler.cpp:217-231 | Over runs, the ticks counted for all slots grow by the number of ticks |
| Scheduler.BoundedWait | kernel/scheduler.cpp:200-238 | A slot that stays ready runs by the 150th tick and by the 15th switch, whatever else happens |
| Mutex.SharedLock.TryLock | kernel/mutex.cpp:22-30 | Whatever the others do meanwhile: who gets the lock has it alone, who does not finds another one inside |
| Mutex.SharedLock.Lock | kernel/mutex.cpp:32-37 | When mutex_lock returns, the caller has the lock alone |
| Mutex.SharedLock.Unlock | kernel/mutex.cpp:39-43 | When mutex_unlock returns, the lock is free and nobody is inside |
| Mutex.LockThenUnlock | kernel/mutex.cpp:32-43 | Locking a free lock and unlocking it leaves it as it was |
| Mutex.TryTakesFree | kernel/mutex.cpp:22-30 | A try takes a free lock, and leaves a held one as it is |
| Mutex.FastPath | kernel/mutex.cpp:32-37 | The owner test lets in exactly the holder |
| Mutex.SameIdUnsafe | kernel/mutex.cpp:32-37 | Two processes with one id get in together |
| Mutex.NobodyUnsafe | kernel/mutex.cpp:17-37 | The id that stands for no owner gets in while another one enters |
| Mutex.MutualExclusion | kernel/mutex.cpp:6-43 | If no process unlocks from within a nested lock, or none locks again: in every interleaving at most one process is inside, if and only if the ids tell processes apart |
| Mutex.NestedUnsafe | kernel/mutex.cpp:32-43 | A holder that locks again and unlocks once lets another process in beside it |
| Mutex.NestedExclusion | kernel/mutex.cpp:6-43 | If calls are only balanced, at most one process is inside in every interleaving, if and only if there is at most one process |
| Semaphores.Semaphore.TryWait | kernel/mutex.cpp:50-61 | One section of sem_wait |
| Semaphores.Semaphore.Signal | kernel/mutex.cpp:63-67 | sem_signal with its unsigned comparison |
| Semaphores.UnitsConserved | kernel/mutex.cpp:45-67 | Units are conserved in every run, and a count between 0 and the maximum stays there |
| Semaphores.RaisesExact | kernel/mutex.cpp:63-67 | When a signal raises the count, negative counts included |
| Raster.OnePixel | graphics/painter.cpp:44-57 | A line has one pixel per column, or per row if it is steep |
| Raster.LineStep | graphics/painter.cpp:51-55 | Each step leads from a pixel within half a pixel of the true line to the next one |
| Raster.Painter.DrawLine | graphics/painter.cpp:44-57 | Ends after max(dx, dy) + 1 plots and colours exactly the clipped pixels of the line |
| Raster.LineNear | graphics/painter.cpp:44-57 | Every pixel of a line is within half a pixel of the true one |
| Raster.LineComplete | graphics/painter.cpp:44-57 | Whatever is closer than half a pixel is coloured |
| Raster.SameRoot | graphics/painter.cpp:140-150 | There is one rounded root |
| Raster.CircleStep | graphics/painter.cpp:140-150 | Every plotted point is a correctly rounded one |
| Raster.CircleEnd | graphics/painter.cpp:140-150 | No point of the octant is missed |
| Raster.Painter.DrawCircle | graphics/painter.cpp:140-150 | Colours exactly the clipped pixels of the correctly rounded circle, for every radius |
| Raster.CircleNear | graphics/painter.cpp:140-150 | A point is on a circle exactly if its squares differ from the radius's by less than the larger coordinate |
| Raster.Painter.SetClip | graphics/painter.cpp:14-16 | The clip becomes the intersection |
| Raster.Painter.Plot | graphics/painter.h:42-46 | One pixel, if the clip has it |
| Frames.Bitmap.constructor | kernel/pmm.cpp:22-41 | Which pages are in use, for every memory size that fits the bitmap, and exactly when the counter agrees |
| Frames.SetAtFirst | kernel/pmm.cpp:22-41 | The pages in use at first: those that start before the kernel's end, in whole bytes of the bitmap |
| Frames.Bitmap.Alloc | kernel/pmm.cpp:43-52 | The lowest free page; null exactly when none is free |
| Frames.Bitmap.FreePages | kernel/pmm.cpp:62-62 | The number of clear bits |
| Frames.Bitmap.Free | kernel/pmm.cpp:54-60 | One bit is cleared and counted once |
| Frames.BitOps | kernel/pmm.cpp:10-20 | Bit operations touch one page only |
| Paging.CreateKeeps | kernel/paging.cpp:8-15 | A new table changes no translation |
| Paging.PutKeeps | kernel/paging.cpp:41-47 | Storing an entry changes one page's translation |
| Paging.EntryGrants | kernel/paging.cpp:45-45 | An entry holds its frame, the present bit, and the low bits of the flags |
| Paging.PagesCover | kernel/paging.cpp:58-73 | As many pages as cover a region, except that the last 4095 sizes wrap around to none |
| Paging.IdentityMap | kernel/paging.cpp:17-31 | The first eight megabytes are mapped to themselves, the rest not at all |
| Paging.AddressSpace.Map | kernel/paging.cpp:41-47 | Exactly one page of the flat map changes, to a frame that is writable, open to user mode and so on as the flags say; a new table is open to both; a fault, with the map unchanged, exactly when a table is missing and no page is free |
| Paging.AddressSpace.Unmap | kernel/paging.cpp:49-56 | Exactly one page is unmapped |
| Paging.AddressSpace.PhysAddr | kernel/paging.cpp:75-82 | The flat map's translation |
| Paging.AddressSpace.MapRegion | kernel/paging.cpp:58-63 | The pages of the region, wrapping around, with the flags asked for, and no others; after a fault those before it, and no page is free |
| Paging.AddressSpace.AllocRegion | kernel/paging.cpp:65-73 | Pairwise different free pages, mapped in order with the flags asked for; giving up only when none is free; after a fault all but the last page taken are mapped |
| Evaluator.Parser.ParseExpression | kernel/osmath.cpp:60-77 | Terminates and never reads past the NUL; the value of sums |
| Evaluator.Parser.ParseFactor | kernel/osmath.cpp:27-39 | Numbers and parentheses |
| Evaluator.Evaluate | kernel/osmath.cpp:79-83 | Terminates on every text with the outcome that the parsing functions define |
| Evaluator.EvaluatesWritten | kernel/osmath.cpp:10-83 | However an expression is written, its 32-bit value results and the whole text is read; a trap exactly when something is divided by zero |
| Evaluator.WrapsLikeIntegers | kernel/osmath.cpp:41-77 | Without division the result is the integer value modulo 2^32, however often it wraps on the way |
| Evaluator.ExactInRange | kernel/osmath.cpp:41-77 | If no value on the way leaves 32 bits the result is the value, division rounding down |
| Evaluator.DividesDown | kernel/osmath.cpp:41-58 | The quotient, and its failure exactly for a divisor of zero |
| Evaluator.PrintThenEvaluate | kernel/osmath.cpp:10-83 | Printing with the needed parentheses and evaluating gives the value, for every expression |
| Dns.Encode | kernel/dns.cpp:91-106 | The bytes written, with label lengths cut to eight bits |
| DnsWire.WireFormat | kernel/dns.cpp:91-106 | Labels with dots between them are encoded as labels behind their lengths, and a zero byte |
| DnsWire.PointerFollowed | kernel/dns.cpp:125-132 | Where a pointer leads |
| Dns.Decode | kernel/dns.cpp:108-143 | Terminates on every packet, stays inside both buffers, agrees with following pointers, and returns an offset in (offset, length] |
| Dns.FollowEncoded | kernel/dns.cpp:91-143 | An encoded name is read back wherever it stands, if the room suffices and only then |
| Dns.NameRoundTrip | kernel/dns.cpp:91-143 | The name itself comes back exactly when it is a good one |
| Dns.RoomNeeded | kernel/dns.cpp:131-137 | A good name needs one byte of room more than its length |
| DnsAnswers.ParseResponse | kernel/dns.cpp:164-218 | Stays inside every packet, and returns the address that the walk over questions and records defines |
| DnsPointers.FollowJoined | kernel/dns.cpp:108-143 | A name in pieces, however its pointers lead, is read exactly when it has at most ten pointers and its text fits, and the place behind its first piece is found |
| DnsPointers.EncodedIsPiece | kernel/dns.cpp:91-143 | What the encoder writes is a name in one piece |
| DnsAnswers.UsualNames | kernel/dns.cpp:91-143 | A pointer to an encoded name is readable exactly when that name is |
| DnsAnswers.AnswersRead | kernel/dns.cpp:164-218 | Of any response without an error, however many questions and records it has and however their names are compressed, the first four-byte A record is returned, 0 if there is none |
| DnsWire.AddressBytes | kernel/dns.cpp:206-212 | The bytes of the returned word, lowest first, are the record's data |
| DnsWire.RecordBytes | kernel/dns.cpp:190-204 | Where a record's type and length stand |
| DnsWire.FirstOfType | kernel/dns.cpp:185-217 | The first record of type 1 with four bytes decides |
| DnsWire.NoAnswer | kernel/dns.cpp:164-174 | A response that reports an error, or is too short, or announces no answers, yields 0 |
| Rings.Push | kernel/pipe.cpp:58-61 | Storing behind the newest element appends |
| Rings.Pop | kernel/pipe.cpp:80-83 | The oldest element is in the tail cell |
| Pipes.Pipe.WriteSection | kernel/pipe.cpp:54-65 | As many bytes as there is room for are appended |
| Pipes.Pipe.ReadSection | kernel/pipe.cpp:78-86 | The oldest bytes are taken out |
| Pipes.Pipe.CloseWrite | kernel/pipe.cpp:36-38 | The bytes in the pipe stay |
| Pipes.FirstInFirstOut | kernel/pipe.cpp:45-104 | In every interleaving, bytes read and bytes in the pipe are the bytes written, in section order |
| Pipes.SectionsMove | kernel/pipe.cpp:45-104 | A section goes on until its data, the room, the bytes or the buffer end |
| NetQueue.Queue.Enqueue | kernel/net_queue.cpp:10-24 | Appends a packet, refused exactly when its length is wrong or 30 are queued |
| NetQueue.Queue.Dequeue | kernel/net_queue.cpp:26-36 | The oldest packet |
| NetQueue.StepKeeps | kernel/net_queue.cpp:10-36 | Every single access to what the other side also uses keeps the queue right |
| NetQueue.NeverTheSameSlot | kernel/net_queue.cpp:10-36 | In every interleaving producer and consumer are never in the same slot |
| NetQueue.FirstInFirstOut | kernel/net_queue.cpp:10-36 | Packets come out in order and unaltered, with at most 30 queued |
| NetQueue.OfferAndLook | kernel/net_queue.cpp:10-36 | A packet is taken exactly if fewer than 30 wait, and one is found exactly if one waits |
| Vfs.GrownTree | kernel/vfs.cpp:59-85 | A new node keeps sibling names different and links inverse |
| Vfs.ChildFound | kernel/vfs.cpp:50-57 | A node is what its parent finds under its name |
| Vfs.Ramfs.Add | kernel/vfs.cpp:59-85 | Adds exactly when the parent is a directory with room, the name is new and a node is left |
| Vfs.Ramfs.Resolve | kernel/vfs.cpp:150-185 | The node a path leads to, components cut at 63 bytes |
| Vfs.Ramfs.CwdPath | kernel/vfs.cpp:187-212 | The path of the current directory, cut to the buffer |
| Vfs.Ramfs.Chdir | kernel/vfs.cpp:214-220 | Moves exactly to a directory that the path leads to |
| Vfs.PathRoundTrip | kernel/vfs.cpp:150-212 | The current directory's path leads back to it from anywhere, exactly when the names on the way can be written in a path |
| VfsLaws.ChildExact | kernel/vfs.cpp:50-57 | The child that is found is the only one of that name |
| VfsLaws.PartsInTurn | kernel/vfs.cpp:150-185 | A path of two parts leads where the second leads from where the first one does |
| VfsLaws.OnePart | kernel/vfs.cpp:150-185 | "." stays, ".." goes to the parent, any other part to the child of that name |
| VfsLaws.LongPart | kernel/vfs.cpp:150-185 | A part of more than 63 bytes is cut, and its rest is taken for a part of its own |
| VfsLaws.WholeExactly | kernel/vfs.cpp:187-212 | The current directory's path is whole exactly up to a depth of 63 |
| VfsLaws.RelativeIsAbsolute | kernel/vfs.cpp:150-212 | A relative path leads where its absolute form leads, from anywhere |
| VfsLaws.AddedFound | kernel/vfs.cpp:59-85 | A node added is found under its name and is of the kind asked for; all else is found as before |

## Left out

- FatFiles.Read: buffers are sequences; that the caller's memory is large enough is not stated.
- FatFiles.FreeChain: tables with a link past the last data cluster, such as an end mark other than 0x0FFFFFFF, at which the source would read on.
- FatFiles.Write: the bytes of a gap between the old end and the offset are whatever the new clusters held, as in the source; failing sector I/O and a failing buffer allocation are not modelled.
- FatVolume.Volume.constructor: reading the boot sector and checking it; the layout is a parameter.
- FatDirs.ReadDir: directories with long-name slots, whose text the source collects and shows.
- FatDirs.Find: directories with long-name slots, as for FatDirs.ReadDir.
- FatDirs.WriteDirEntry: the last pass over the fresh cluster is unrolled.
- FatRuns.EmptyVolume: what fat32_init does to recognise such a volume.
- FatRuns.Session: the client descends only through directories, as the shell's file system layer means to; the driver itself does not check this. It gives names that make live slots to mkdir and rename; what happens otherwise is said of FatMake.Mkdir and FatMove.Rename. Its reads want files that are as long as their entries say, which every command keeps.
- FatMove.Rename: that the new name is not already taken is not checked by the source and not stated.
- Tcp.Socket.Receive: the table of eight sockets and the choice of a socket by address are not modelled; nor are checksums, which the source does not verify on receipt, and the fields of IP and Ethernet headers.
- TcpSafety.UnsafeRewind: shows that sending on can do harm, not that it always does: what is sent may be lost, or be what was sent before.
- TcpSafety.Safety: one connection between one pair of ports; no liveness, since a chunk replaced in the single retransmit slot is never sent again; that FIN_WAIT_2 means an acknowledged FIN is not claimed, since any ACK leads there. The waiting loops of connect, send, receive and close are the interleaved steps.
- HeapMemory.KernelHeap.Kfree: only null and pointers to blocks of the heap; a stale header inside another block's payload is not modelled.
- Scheduler.Kernel.Create: process stacks, user memory, names and the count of processes are not modelled; a context switch is a change of the current index.
- Mutex.MutualExclusion: a process that unlocks what it has not locked is left out, as the source leaves it to its callers; fairness and termination of the waiting loop are not stated.
- Paging.AddressSpace.Map: when a table is needed and no page is left the source goes on with a table at address zero; here that is a fault, and the call ends.
- Paging.AddressSpace.MapRegion: ends at a fault of Paging.AddressSpace.Map.
- Paging.AddressSpace.AllocRegion: ends at a fault of Paging.AddressSpace.Map.
- Evaluator.Evaluate: the depth of the machine stack is not limited.
- Dns.Encode: the caller's buffer is taken to be large enough, which the source does not check.
- DnsAnswers.ParseResponse: packets of at most 512 bytes, as the receiving callback ensures; longer ones could wrap a 16-bit position.
- Vfs.Ramfs.CwdPath: buffers of one byte, of which the source writes two at the root.
- Vfs.Ramfs.Add: the source copies a name without checking its length; names are under 64 bytes here.
- Frames.Bitmap.constructor: memory of at most 32768 bytes of bitmap; the source does not check this.
- Raster.Painter.DrawLine: coordinates are unbounded, so overflow of 32-bit sums is not modelled.
- Long file names, timestamps, partition tables, `fat32_resolve`, and reading a FAT32 boot sector.
- `tcp_connect`'s choice of ports and sequence numbers; segment windows.
- `kmalloc_aligned`, the DNS cache and the sending of DNS queries, the RAM file system's file data, rectangles, text and blitting.
- Drivers, interrupts, descriptor tables, the shell, windows, the ELF loader and system calls: hardware set-up and user interface.
- The wrap of the millisecond clock.
