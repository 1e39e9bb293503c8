# A model of the HAROLD kernel's stateful core, with proofs

HAROLD is a small kernel written in C. This project models the parts of it that keep state:
the FAT16 driver, the TCP connection table, the scheduler and the life of a task, the frame
allocator, paging and the first-fit heaps. It proves what those parts promise for every
input, every run and every order of steps. `dafny verify dfyconfig.toml` checks all of it.

Hardware is replaced by values. A disk is a sequence of 512-byte sectors, the tick counter is
a parameter, packets are byte sequences, and a region that the kernel runs with interrupts off
is one step.

## How it is built

* **FAT16** (`Fat*.dfy`). `FatDisk` is the disk and its geometry, `FatChains` the cluster
  chains, `FatRead` and `FatWrite` the byte streams, `FatDirs` the directory slots, `FatNames` names,
  `FatCatalog` the well-formed volume, `FatVolume`, `FatOps` and `FatMount` the paths and the
  operations on them. `FatRuns` states what any run of calls keeps. `FatDriver` is the mounted
  volume: a class whose calls are each proved to be a step of such a run. `FatExamples` gives
  volumes that meet the invariant.
  A catalog gives every directory entry its chain of clusters. `WellFormed` says that the
  chains are complete and disjoint, that every FAT entry in use belongs to one of them (or to
  the set of lost clusters), that all FAT copies agree, and that directories are in order.
* **TCP** (`Tcp*.dfy`, `Checksum.dfy`). `Tcp` gives the effect of each call on the table,
  `TcpTable` its invariant over all runs, `TcpTimers` the time bounds, `TcpRtt` the estimator
  against exact reals, `TcpFlight` what is sent and not yet acknowledged, `TcpRing` the receive
  ring under every interleaving, `TcpServer` the calls in place. `TcpSession` describes a
  connection a second time, as two byte streams and a history without rings, kept numbers or kept
  timeouts, and proves that the table follows it in state and on the wire; `TcpStreams` states
  what that is worth.
* **Tasks and memory**. `Scheduler`, `Reaping` (cleaning up while others run), `Pmm`,
  `Paging`, `Loader` (the program loader), `Heap` and `HeapMemory`, `TaskLife` (a whole life
  from creation to reaping), `Outcomes` (how running a program ends, in numbers) and `Usermode`
  (the first stack page). `Paging` keeps the contents
  of directories and tables by physical address and translates the kernel's pointers as the
  processor does; a mapping made since CR3 was loaded last may or may not be seen.

## What is found about the code

* A write in modify mode that leaves a cluster which is not the last one always allocates a
  new cluster and never follows the existing link. The rest of the old chain is lost. This
  happens exactly when the write is not `InPlace` (`FatDriver.LosesExactly`); 513 bytes written
  to the start of a file of two clusters do it (`FatExamples.ModifyLosesCluster`).
* Such a write leaves a chain shorter than the file size. On it `fat_seek` followed by `fat_read`
  is right exactly where the chain reaches past the offset or the offset is the end of the file
  (`FatRead.SeekRemaining`); elsewhere it returns the first bytes of the cluster that happens to
  lie behind the chain's last one on the disk (`FatRead.SeekThenReadBehind`).
* A new entry is found under its stored 8.3 name before an older file that has that name as a
  long name, if a free slot stands before the older file. On a volume with a deleted slot in
  front of "longname1", making "longname2" moves the path "longname1" to the new file
  (`FatExamples.LongNameTaken`). A path keeps its entry exactly when no call takes one of its
  lookups in this way (`FatRuns.RunKeepsTarget`).
* Of a long name the driver keeps 247 characters, where FAT allows 255: a file is found under its
  long name exactly up to that length (`FatNames.LongFoundExactly`). Of a component of a path it
  looks at 47 bytes (`FatVolume.PathStep`).
* A name whose first byte is 0xE5 is stored as a deleted slot. It is found again exactly when
  the first byte differs from 0xE5 (`FatDirs.CreatedFoundExactly`).
* `ip_send` cuts its payload to 1472 bytes, while `tcp_send_segment` and `udp_send` build up to
  1480. The frame carries the whole segment exactly up to 1452 bytes of TCP payload and 1464 of
  UDP payload. Beyond that what arrives checks exactly when the length and the words of the part
  cut off cancel out (`Checksum.TcpSend`, `Checksum.UdpSend`); 1460 zero bytes do not check
  (`Checksum.LongZerosFail`).
* The loader runs under the task's own directory and uses the physical addresses of directory,
  tables and heap as pointers. A segment may cover those pages: elf.c checks only its upper end.
  Mapping a page through such a pointer keeps the account of frames exact if and only if neither
  that page nor the page of the table is private (`Paging.MapsExactlyWhen`). A program whose first
  segment covers its own table leaks the frame of every later page (`Loader.CoveringLeaks`,
  `Loader.NotHarmless`), and one that covers kernel memory makes `kfree` work on the task's page
  (`TaskLife.CoveredMisses`).
* The end of a segment is computed in 32 bits and only that end is checked. A segment in the last
  4 MB whose end wraps to 0 is accepted and gets no page at all, and its bytes go through a copy
  of the kernel's table to the physical pages below 4 MB (`Loader.WrappedSegment`); one page at
  0xFFFFF000 does it (`Loader.WrappedNotHarmless`). A file size above the memory size writes
  behind the pages too. Every byte goes to a page of the segment if and only if its uncut end does
  not pass the end page (`Loader.StaysInsideExactly`); the pages mapped are those that hold its
  bytes if and only if it ends a page before the end of the address space
  (`Loader.NeededExactly`).
* The task's life is proved for programs that do none of this, a condition on the segments and the
  free frames at the start (`Loader.Harmless`), which programs of the usual layout and any size meet
  (`Loader.OrdinaryHarmless`).
* The kernel's pointer to a frame that is not handed out reaches that frame if and only if the
  current task has no private page there, and else a page of that task (`Paging.FreePointer`). So
  a task with a page over the next free frame that creates another task has the new directory
  written into its own page, while CR3 gets a frame with whatever it held before
  (`TaskLife.ClonedIntoCreator`); and the loader that clears a new frame clears a page of its own.
* Two segments of a program that share a page leak a frame (`Paging.ExactUnlessShared`).
* A heap request above 2^32 - 8 bytes wraps to zero and succeeds with a block that is too small
  (`Heap.AlignUpEnough`, `Heap.HugeRequest`).
* The frame scan stops at total plus used frames. It finds a free frame whenever there is one
  if and only if the first usable frame lies below half of the last (`Pmm.WindowNeeds`).
* `pmm_init` cuts the 64-bit addresses and lengths of the memory map to 32 bits. A region is read
  as it is if and only if it survives the cut (`Pmm.CutExactly`). One that starts at 4 GB is taken
  for one that starts at 0 (`Pmm.HighRegionMisread`): with 512 MB below and 1 GB above, frames are
  counted twice and frames without memory behind them are handed out (`Pmm.HighMapMisread`).
* A connection tracks one segment. A send or close while an earlier segment is not acknowledged
  replaces it, and what it held can never be sent again. The tracked segment is everything in
  flight if and only if that has not happened (`TcpFlight.OneInFlight`); two sends in a row do it
  (`TcpFlight.TwoSends`).
* The comment on `task_sleep` promises at least the time asked for. The code keeps it if and only
  if the product of milliseconds and frequency does not overflow and is below 1000 or a multiple
  of 1000 (`Scheduler.SleepsLongEnough`); 15 ms at 100 Hz sleeps 10 ms (`Scheduler.SleepsTooShort`).

## Model

| member | source | states |
|---|---|---|
| FatDisk.SetClusterEntry | src/fat.c:833-852 | one FAT entry changes to the value in every FAT copy; no other entry and no other sector changes, and agreeing copies still agree |
| FatDisk.NextIsFatEntry | src/fat.c:361-375 | reading the next cluster gives the entry of the first FAT copy |
| FatChains.FreeChain | src/fat.c:975-984 | for every FAT, even a cyclic one, it ends and zeroes in every copy exactly the clusters reachable from the start |
| FatChains.AllocCluster | src/fat.c:855-886 | with its one-sector cache it takes the least free cluster and marks it as an end of chain, or returns 0 if and only if none is free |
| FatChains.FindLastCluster | src/fat.c:889-904 | returns the last cluster of the chain, 0 for an empty file |
| FatChains.Conservation | src/fat.c:833-984 | free, chained, lost and reserved clusters add up to the whole data area |
| FatChains.ClaimPartition | src/fat.c:855-886 | claiming a free cluster keeps chains complete and disjoint |
| FatChains.RelinkPartition | src/fat.c:1294-1304 | linking a new cluster behind position j keeps chains disjoint and loses exactly what was behind j |
| FatChains.FreePartition | src/fat.c:975-984 | emptying a file returns its whole chain and nothing else |
| FatChains.ChainReach | src/fat.c:975-984 | the clusters reachable from the head of a chain are the chain |
| FatRead.Read | src/fat.c:704-760 | for every image and every cursor: a cursor inside its cluster takes the next bytes off its stream, as many as asked for and left; one at or behind the end of its cluster takes one portion of the sector there and goes on at the next cluster; -1 and no change for a bad descriptor |
| FatRead.ReadWhole | src/fat.c:628-657 | copies exactly the stream that starts at the first cluster |
| FatRead.ChunkedReadsAreWholeFile | src/fat.c:597-760 | on every image, cyclic and short chains included, reading in positive pieces until nothing comes gives exactly the bytes the one-call read copies |
| FatRead.ReadsRunDry | src/fat.c:704-760 | on every image a file of n bytes gives at most n non-empty reads |
| FatRead.StreamOnChain | src/fat.c:704-760 | on a complete chain, long enough for the file or not, the stream behind a cursor is the matching slice of the chain's bytes, up to the end of the chain |
| FatRead.Seek | src/fat.c:763-799 | fails exactly for a bad descriptor or an offset past the end, and then changes nothing; else only the cursor moves |
| FatRead.SeekOnChain | src/fat.c:763-799 | the walk ends in the cluster and offset of the position, also at an exact cluster boundary at the end of the file |
| FatRead.SeekPastChain | src/fat.c:763-799 | behind the end of a chain the walk stops on the last cluster, marked full |
| FatRead.SeekRemaining | src/fat.c:763-799 | on a complete chain of any length the cursor that seek leaves is good if and only if the chain reaches past the offset or the offset is the file size, and then the stored bytes from the offset on are left |
| FatRead.SeekThenReadStored | src/fat.c:704-799 | where the chain reaches past o, seek to o and read n gives the stored bytes from o to the smaller of o+n and what is stored |
| FatRead.SeekThenReadBehind | src/fat.c:704-799 | elsewhere, short of the file size, it gives the first bytes of the sector behind the last cluster, which are those of the next cluster on the disk, and no more |
| FatRead.SeekThenRead | src/fat.c:704-799 | seek to o and read n gives the content from o to the smaller of o+n and the size |
| FatWrite.GrowFirst | src/fat.c:1272-1293 | an empty file gets its first cluster, recorded in its directory entry, or nothing changes because no cluster is free |
| FatWrite.GrowNext | src/fat.c:1294-1304 | the chain goes on with a new cluster behind the cursor, or nothing changes because no cluster is free |
| FatWrite.Write | src/fat.c:1257-1347 | the bytes reported are in the file at the old offset, the directory entry holds the new size, a short count means the disk is full, and the chain grows exactly when the data do not fit in the current cluster and a cluster is free |
| FatWrite.WriteContent | src/fat.c:1257-1347 | a write inside its cluster or from the last one splices exactly the reported bytes into the content, all others unchanged |
| FatWrite.LostExactly | src/fat.c:1294-1304 | clusters are lost if and only if the chain grows from a cluster that is not the last |
| FatDirs.NameTo83 | src/fat.c:110-150 | computes the 8.3 form, whose bytes FatNames.Name83Bytes gives |
| FatDirs.DirSectorLba | src/fat.c:378-408 | the n-th sector of a directory, or 0 past its end |
| FatDirs.ScanSector | src/fat.c:421-478 | one sector of the scan continues the lookup over all slots, long names included |
| FatDirs.FindEntryInDir | src/fat.c:411-479 | finds the first slot that matches by its 8.3 name or by the long name before it, or nothing if there is none |
| FatDirs.FindFreeSlot | src/fat.c:912-936 | finds the first free slot, or nothing if the directory is full |
| FatNames.Name83Bytes | src/fat.c:110-150 | byte for byte: the 8.3 form is the first eight bytes before the first dot and the three behind it, each small letter as its capital and every other byte unchanged, and spaces |
| FatNames.Name83HasNoSmall | src/fat.c:118-147 | no 8.3 form holds a small letter |
| FatNames.EqualMeansTwins | src/fat.c:269-291 | the comparison of long names is true if and only if the names differ at most in the case of letters |
| FatNames.CaseBlind | src/fat.c:411-479 | in every directory names that differ only in case find the same entry |
| FatNames.StoredIsFound | src/fat.c:411-479 | every entry before the end mark, or one before it, is found under every spelling of its 8.3 name, small letters included |
| FatNames.CreatedInAnyCase | src/fat.c:1128-1188 | a file created under one spelling is found at its slot under every other |
| FatNames.ChecksumRotates | src/fat.c:248-267 | the checksum starts at 0 and each byte is added to the sum rotated right by one bit |
| FatNames.ChecksumTellsOneByte | src/fat.c:248-267 | short names that differ in one byte have different checksums |
| FatNames.LongFound | src/fat.c:195-479 | for every text of 1 to 255 ASCII characters, stored as another system stores it in up to 20 slots in reverse order: the lookup ends at the short entry behind them if and only if the name is its 8.3 name or, where the checksum is that of the short entry, the first 247 characters in any case; else it goes on behind it |
| FatNames.LongFoundExactly | src/fat.c:195-479 | a file is found under its whole long name if and only if that has at most 247 characters |
| FatNames.MixedIgnored | src/fat.c:195-224 | long-name entries with different checksums belong to no file: the short entry behind them is found under its 8.3 name only |
| FatDirs.CreatedIsFound | src/fat.c:1128-1188 | in a tidy directory a new entry in the first free slot is found at exactly its slot |
| FatDirs.CreatedOvertakes | src/fat.c:411-479 | whatever a name found before, after an entry with its 8.3 form is made it finds that entry if and only if it found nothing or something behind the first free slot, and else what it found before |
| FatNames.LongNameMoves | src/fat.c:411-479 | in every directory that starts with a deleted slot and a file with a long name, stored as a long-name entry and a short one, making another file whose name agrees in the first eight characters moves lookups of the old name to the new entry |
| FatDirs.CreatedIsLocal | src/fat.c:1128-1188 | lookups of names with another 8.3 form are unchanged by a new entry |
| FatDirs.CreatedKeepsOrder | src/fat.c:1128-1188 | a new entry keeps the directory tidy and its 8.3 names distinct |
| FatDirs.CreatedFoundExactly | src/fat.c:1128-1188 | a created name is found again if and only if its first byte is not 0xE5 |
| FatDirs.GrownDirectory | src/fat.c:943-971 | growth into a zeroed cluster keeps lookups, order, distinctness and the first free slot |
| FatCatalog.UpdateFile | src/fat.c:1257-1347 | changing one file's chain and size keeps the volume well formed and every directory the same |
| FatCatalog.AddEntry | src/fat.c:1128-1188 | writing a new entry with its chain keeps the volume well formed |
| FatCatalog.GrowDirectory | src/fat.c:943-971 | linking a zeroed cluster to a directory keeps the volume well formed |
| FatVolume.WriteOnVolume | src/fat.c:1257-1347 | every write, in place or not, keeps the volume well formed, all directories and all other files |
| FatVolume.ResolveParent | src/fat.c:506-542 | resolves a path to its directory and last name as the directory tree says, or fails |
| FatVolume.PathStep | src/fat.c:481-542 | for every path component by component: an empty one is refused, the last is the name with or without a slash behind it, any other must be a directory in which the rest is resolved; of each only 47 bytes are looked at |
| FatVolume.FindEntry | src/fat.c:411-479 | the lookup of the catalog, on a well-formed volume |
| FatVolume.ExtendDir | src/fat.c:943-971 | adds a zeroed cluster to a directory with names and files unchanged, or does nothing because no cluster is free |
| FatVolume.ResolveSame | src/fat.c:506-542 | paths resolve the same on volumes with the same names |
| FatOps.AllocDirEntry | src/fat.c:907-972 | gives a free slot, growing a subdirectory if it must; fails if and only if the directory is full and is the root or no cluster is free |
| FatOps.CreateFile | src/fat.c:1160-1188 | one more name, an empty file, every other name and file as before |
| FatOps.TruncateFile | src/fat.c:1189-1202 | the file is empty, its clusters are free again, every name and other file as before |
| FatOps.MakeDirIn | src/fat.c:1003-1110 | one more name, an empty directory of one cluster, in which "." names that cluster and ".." the parent's, 0 for the root; fails if and only if there is no room, and then names and files are unchanged and the claimed cluster is free again |
| FatMount.OpenEntry | src/fat.c:1114-1232 | refuses exactly an unresolved path, a directory, an existing file in create mode and a directory without room, changing nothing; else the file and the cursor are what the mode says |
| FatRuns.StepPlays | src/fat.c:763-1347 | any call moves an open file as its own tape says: calls on its descriptor overwrite and seek, no other call touches it |
| FatRuns.RunPlays | src/fat.c:763-1347 | over any run a file that stays open holds what replaying the calls on its own descriptor gives |
| FatRuns.ReplayAppends | src/fat.c:1257-1347 | a descriptor at the end that never seeks appends exactly what it reports |
| FatRuns.RunKeepsFile | src/fat.c:987-1347 | a file that no call of a run writes or empties keeps its bytes |
| FatRuns.StepKeepsTarget | src/fat.c:987-1254 | a path that leads to an entry goes on leading there if and only if the call adds no entry that takes one of its lookups: the same directory, the same 8.3 form, and nothing found before the free slot |
| FatRuns.StepTarget | src/fat.c:987-1254 | any path leads where it led if the call takes none of its lookups, and else to the new entry or nowhere |
| FatRuns.RunKeepsTarget | src/fat.c:987-1347 | over any run a path still leads to its entry if and only if no call took one of its lookups; once taken it never comes back |
| FatRuns.WrittenIsRead | src/fat.c:597-1347 | open to create, truncate or append, let any calls follow: the file holds the old content (empty for create and truncate) followed by exactly the bytes the writes reported, also when the disk fills; the path leads to it if and only if no call took one of its lookups, and reading the path then gives those bytes |
| FatRuns.RunConserves | src/fat.c:833-1347 | in every state of a run free plus chained clusters are as many as at the start, no cluster is lost and every reserved entry is unchanged |
| FatRuns.StepKeepsReserved | src/fat.c:833-1347 | no call changes the entry of a bad or reserved cluster |
| FatDriver.Volume.OpenWrite | src/fat.c:1114-1254 | one step of a run: the entry is opened as the mode says and takes the first free descriptor; with none free the file is still created or emptied and -1 returned |
| FatDriver.Volume.Write | src/fat.c:1257-1347 | in every case, in place or not, keeps the volume well formed, every name and every other file; loses clusters if and only if the write is not in place, and in place is one step of a run |
| FatDriver.LosesExactly | src/fat.c:1294-1304 | a write loses clusters exactly when it is not in place |
| FatExamples.FormattedIsSound | src/fat.c:833-984 | every volume with an empty FAT and an empty root directory meets the invariant of all runs |
| FatExamples.ZerosAreFormatted | src/fat.c:833-984 | 257 zero sectors are such a volume |
| FatExamples.TwoLoses | src/fat.c:1294-1304 | on every volume with one file of two clusters, opened to modify, a write is in place if and only if it fits in the first cluster |
| FatExamples.ModifyLosesCluster | src/fat.c:1294-1304 | a concrete such volume, so 513 bytes written there lose a cluster |
| FatExamples.TwoReads | src/fat.c:597-658 | end to end on a volume given byte by byte: the path "a" finds the entry "A" and reads as the 1024 bytes of its two clusters |
| FatExamples.LongTaken | src/fat.c:411-479 | on every volume with an empty FAT and a root directory of a deleted slot and one file with a long name, creating a path that agrees with it in the first eight characters takes the old path from its file |
| FatExamples.LongNameTaken | src/fat.c:1128-1188 | a concrete such volume, on which creating "longname2" takes the path "longname1" from its file |
| FatDriver.AppendsInPlace | src/fat.c:1203-1221 | a descriptor at the end of its file always writes in place |
| FatDriver.Volume.Seek | src/fat.c:763-799 | one step of a run: the descriptor stays on its file at the offset asked for |
| FatDriver.Volume.Close | src/fat.c:802-814 | frees the descriptor, or -1 and no change |
| FatDriver.Volume.CloseAllForTask | src/fat.c:817-830 | afterwards no open descriptor belongs to the task, and all others are as before |
| FatDriver.Volume.Mkdir | src/fat.c:987-1111 | one step of a run: fails exactly for an unresolved path, a name in use or no room |
| FatDriver.Volume.ReadFile | src/fat.c:597-658 | returns the whole content of the file the path leads to, or -1 with the buffer untouched if there is none, it is a directory or the buffer is too small |
| TcpRtt.TracksExactly | src/tcp.c:190-226 | after any samples below 2^28 ticks the scaled SRTT is at or above the exact one of section 2 of RFC 6298 and less than a tick above it, the timeout is within eight ticks of SRTT + 4 RTTVAR before and after clamping, and nothing overflows |
| TcpRtt.StepNear | src/tcp.c:206-223 | one more sample keeps the distances of both estimators from the exact ones |
| Tcp.PushAllQueue | src/tcp.c:402-413 | bytes enter the ring in order until it holds 511, the rest of the segment is dropped |
| Tcp.TakenQueue | src/tcp.c:485-490 | taking n bytes leaves the queue from n on |
| TcpTable.StepKeeps | src/tcp.c:241-536 | every call keeps the table's invariant: distinct peers, nothing pending when closed, a pending segment in SYN_RECEIVED and LAST_ACK, our_seq just behind the pending segment and behind everything sent, timeouts in [2, 200] |
| TcpTable.Reachable | src/tcp.c:66-536 | every table reachable from boot by any calls at any ticks has the invariant |
| TcpTable.AckCovers | src/tcp.c:375-446 | a segment other than a reset clears a pending segment only if it comes from the peer and acknowledges everything ever sent on the connection |
| TcpTable.Transitions | src/tcp.c:264-536 | each state is entered only along the arrows of section 3.3.2 of RFC 9293, except that closing goes straight to LAST_ACK and a SYN of the same peer starts the slot again; the handshake ACK must match both numbers, data must be in order, but a FIN without data and a RST are taken at any sequence number, which section 3.10.7.4 does not allow |
| TcpFlight.OneInFlight | src/tcp.c:51-56 | over every run from boot: the tracked segment is all that is sent and not acknowledged if and only if no send or close came while an earlier segment was in flight, and else it is less |
| TcpFlight.TwoSends | src/tcp.c:495-516 | after any run, of two sends in a row on a connection that can send only the second is tracked, and a timeout resends only its bytes |
| TcpFlight.CanSendSoon | src/tcp.c:333-385 | such a connection exists: a SYN and the ACK that answers ours lead to it |
| TcpFlight.StepTracks | src/tcp.c:241-301 | every call sends on a slot and tracks exactly what it sends, opens the slot, or leaves the tracked segment as it is or clears it |
| TcpSession.StepAgrees | src/tcp.c:241-536 | every call keeps each slot in agreement with its session: state, both sequence numbers, queue, tracked segment, timeout and estimate are those that the histories give |
| TcpSession.Follows | src/tcp.c:66-536 | over every run from boot each slot is what its session says |
| TcpSession.SpeaksAlike | src/tcp.c:139-536 | after every run each call puts on the wire exactly what the sessions say, in the order of the slots |
| TcpStreams.Handshake | src/tcp.c:333-385 | a SYN to port 7 from a new peer, while a slot is free, opens the first free one and is answered with number 1000 and its own plus 1; the matching ACK establishes it with an empty queue and nothing pending; no other slot changes |
| TcpStreams.DataArrives | src/tcp.c:387-434 | on an established connection in-order bytes join the queue up to 511, the expected number grows by all of them and one for a FIN, and one reply carries it; other data change nothing and are not answered |
| TcpStreams.ReadInOrder | src/tcp.c:387-492 | over every run what recv has handed out followed by the queue is what entered the ring since the slot was opened, and it is all that came in order if and only if the ring never overflowed |
| TcpStreams.ResentAsSent | src/tcp.c:264-301 | over every run what the timer sends for a slot is the last segment that a SYN, send or close put on the wire for it, with its flags, number and bytes, ending where everything sent ends; only the acknowledgement is new |
| TcpStreams.BacksOff | src/tcp.c:289-297 | over every run a segment sent again k times waits for the smaller of 200 ticks and 2^k times its first timeout |
| TcpStreams.EstimateTracks | src/tcp.c:190-261 | over every run the timeout that a new segment gets is within eight ticks of the one of section 2 of RFC 6298 for the round trips of the segments sent only once since the slot was opened |
| TcpTimers.LeavesInTime | src/tcp.c:264-301 | a connection that has stayed in SYN_RECEIVED or LAST_ACK has done so for at most 6 (200 + d) ticks and five retransmissions if the timer check runs every d ticks, across tick wraparound, unless the peer sends a new SYN |
| TcpTimers.EntersFresh | src/tcp.c:333-373 | a slot enters these two states with its segment just sent and no retransmission counted |
| TcpTimers.OnTimeNext | src/tcp.c:264-301 | each retransmission follows the last within one timeout and one check interval |
| TcpRing.Delivers | src/tcp.c:398-413 | under every interleaving with recv the bytes delivered and queued are accepted bytes at increasing positions, all of them until the ring first overflows, and recv returns 0 only when the ring is drained and the connection has ended |
| TcpRing.StepKeeps | src/tcp.c:471-492 | every single read or write of the shared fields keeps the ring's invariant |
| TcpRing.OverflowsFull | src/tcp.c:404-409 | bytes are dropped only when 511 are queued |
| TcpServer.ParsesBack | src/tcp.c:164-176 | a receiver parses out of the frame exactly the ports, numbers and flags that were sent and the first 1452 bytes of the payload |
| TcpServer.Server.FindConnection | src/tcp.c:97-123 | the first open slot with that address and port |
| TcpServer.Server.AllocConnection | src/tcp.c:126-136 | the first closed slot |
| TcpServer.Server.SendTracked | src/tcp.c:241-261 | one segment is sent, cut to 1452 bytes of payload by ip_send, and its first 1460 bytes are remembered for retransmission |
| TcpServer.Server.RttSample | src/tcp.c:190-238 | clears the pending segment; only a segment sent once gives a sample (Karn) |
| TcpServer.Server.CheckRetransmits | src/tcp.c:264-301 | one timer step of the table and what it puts on the wire; TcpStreams.ResentAsSent and TcpStreams.BacksOff say what that is |
| TcpServer.Server.HandleData | src/tcp.c:387-434 | the step for data; TcpStreams.DataArrives says what is queued, counted and answered |
| TcpServer.Server.Receive | src/tcp.c:304-449 | one step of the table and what it puts on the wire, for every segment that arrives; TcpSession.Follows and TcpSession.SpeaksAlike say what that is |
| TcpServer.Server.Accept | src/tcp.c:452-468 | claims the first established connection not claimed before, each only once |
| TcpServer.Server.Recv | src/tcp.c:471-492 | copies the oldest queued bytes, as many as there are and fit, and leaves the rest queued |
| TcpServer.Server.Send | src/tcp.c:495-516 | tracks at most 1460 bytes and reports them in the two states that can send, else -1 and no change; the frame carries a prefix of the data, all that is reported if and only if there are at most 1452 bytes |
| TcpServer.Reported | src/tcp.c:495-516 | the frame of a send carries exactly the first 1452 bytes of the data |
| TcpServer.Server.Close | src/tcp.c:519-536 | sends and tracks a FIN and enters LAST_ACK, else -1 and no change |
| Checksum.IpChecksum | src/ip.c:86-107 | for every buffer of at most 131074 bytes, odd lengths included, the one's-complement checksum of section 1 of RFC 1071, without 32-bit overflow |
| Checksum.FoldCarries | src/ip.c:101-104 | the carry fold ends, with zero only for a zero sum and else the residue modulo 0xFFFF from 1 to 0xFFFF |
| Checksum.SumFolds | src/ip.c:90-104 | folding a plain sum equals one's-complement addition with end-around carry |
| Checksum.StoredChecks | src/ip.c:171-173 | a checksum stored in a zeroed field at an even offset makes the buffer check to zero, and so does 0xFFFF in place of zero |
| Checksum.OnlyTheChecksumChecks | src/ip.c:171-173 | no other value in the field checks |
| Checksum.IpSend | src/ip.c:123-181 | the header of every frame checks to zero; lengths, protocol, addresses and the first 1472 bytes of the payload are in place |
| Checksum.UdpDatagram | src/udp.c:24-74 | datagram and pseudo-header check to zero before sending and the checksum field is never zero |
| Checksum.TcpSegment | src/tcp.c:139-184 | segment and pseudo-header check to zero before sending and every header field is in place |
| Checksum.CutChecks | src/ip.c:127-131 | a segment that checks, cut at an even offset, still checks if and only if the length plus the words of the rest are a multiple of 0xFFFF |
| Checksum.LongZerosFail | src/ip.c:127-131 | a segment of 1460 zero bytes does not check once it is cut |
| Checksum.UdpSend | src/udp.c:24-77 | every header field is in place; the frame carries the whole datagram if and only if the payload has at most 1464 bytes, and what arrives checks if and only if it does or the part cut off cancels out |
| Checksum.TcpSend | src/tcp.c:139-187 | every header field is in place; the frame carries the whole segment if and only if the payload has at most 1452 bytes, and what arrives checks if and only if it does or the part cut off cancels out |
| Scheduler.NextFromNearest | src/task.c:23-34 | the chosen task is the nearest runnable one in cyclic order |
| Scheduler.StepKeeps | src/task.c:37-272 | exactly the current task is running after every call, and no call switches to the task that runs already, also between counting a new slot and filling it |
| Scheduler.StepStates | src/task.c:37-272 | task by task what each call leaves: the chosen one runs, the caller sleeps with its wake-up tick, has given up its slot or is ready, due sleepers are ready, and all others are as before |
| Scheduler.SwitchesToReady | src/task.c:23-272 | a call switches only to a ready task, or on a tick to a sleeper that is due |
| Scheduler.ExitedStays | src/task.c:57-68 | the slot of an exited task stays unused until task_create takes it |
| Scheduler.StepCloser | src/task.c:206-227 | every switch that does not reach a ready task brings the scheduler closer to it |
| Scheduler.TickMoves | src/task.c:206-227 | a tick switches whenever another task is ready |
| Scheduler.ReadyRunsSoon | src/task.c:23-227 | a task that stays ready runs within task_count - 1 switches, also while tasks are created |
| Scheduler.DueExactly | src/task.c:194-203 | the signed comparison is true at the wake-up tick and at no earlier one, across wraparound |
| Scheduler.SleepsExactly | src/task.c:194-253 | whatever the others do, a sleeper stays asleep until exactly its n-th tick, which makes it runnable |
| Scheduler.SleepsFromCall | src/task.c:229-253 | in every run that starts with task_sleep for n ticks the caller is asleep in each later state before the n-th tick, which makes it runnable |
| Scheduler.SleepsForTime | src/task.c:229-253 | so task_sleep(ms) ends exactly at the tick of the rounded time, whenever the product fits into 32 bits |
| Scheduler.SleepTicksExact | src/task.c:230-242 | the ticks slept are the time asked for, rounded down and at least one, if and only if the product stays below 2^32 |
| Scheduler.SleepsLongEnough | src/task.c:229-242 | the time slept is at least the time asked for if and only if the product does not overflow and is below 1000 or a multiple of 1000 |
| Scheduler.SleepsTooShort | src/task.c:229-242 | 15 ms at 100 Hz sleeps one tick |
| Scheduler.TaskTable.NextTaskId | src/task.c:23-34 | the loop computes the choice |
| Scheduler.TaskTable.WakeSleepers | src/task.c:194-203 | exactly the due sleepers become ready |
| Scheduler.TaskTable.Schedule | src/task.c:206-227 | one timer step |
| Scheduler.TaskTable.TaskSleep | src/task.c:230-253 | one step with the ticks of the time asked for; Scheduler.SleepsForTime says when the caller wakes |
| Scheduler.TaskTable.TaskExit | src/task.c:57-68 | one step: the caller's slot is unused and another task runs |
| Scheduler.TaskTable.TaskYield | src/task.c:256-272 | one round of waiting: the caller is ready and another task runs |
| Reaping.StepKeeps | src/task.c:83-191 | every atomic step of reaping, creating, running, opening and exiting keeps ownership of stacks, directories and frames exclusive |
| Reaping.LiveKeeps | src/task.c:83-191 | a live task keeps its stack, directory and private frames through every step but its own exit |
| Reaping.FreesOnlyDead | src/task.c:83-103 | whatever a step frees is in use, so nothing is freed twice, and no live task holds it; a task being created holds it only where task_create itself gives its stack back |
| Reaping.InheritsNothing | src/task.c:125-191 | a slot is reused only after every descriptor of its last task is closed, so a new task inherits none |
| Reaping.Creates | src/task.c:125-191 | task_create goes through with any free stack and frame: the slot is live with just these and nothing else changes |
| Reaping.GivesBack | src/task.c:149-159 | a task_create that fails leaves everything but the count as it was |
| Reaping.RunsAndExits | src/task.c:57-68 | a live task is switched to and maps frames for itself; an exited one is not live and keeps what it held |
| Reaping.FreesAllOnce | src/task.c:83-103 | whatever the others do meanwhile: until the slot of an exited task can be used again task_reap frees exactly what the slot no longer holds, each thing once; then it has freed everything the task held |
| Reaping.ReapGoesOn | src/task.c:83-103 | at an exited task the next step of task_reap comes closer to the end, and it goes on only when the slot can be used again |
| Reaping.PassCleans | src/task.c:83-103 | a whole call can be completed from every state; afterwards every slot that was not live can be used again and the live ones are untouched |
| Pmm.WindowFinds | src/pmm.c:93-111 | with frames [k, n) usable and 2k < n the scan finds a free frame whenever there is one |
| Pmm.WindowNeeds | src/pmm.c:93-111 | it does so for all sets of used frames if and only if 2k < n |
| Pmm.HeapBelowFrames | src/heap.c:33-41 | the kernel heap ends below the first frame that can be handed out |
| Pmm.KernelFramesAre | src/pmm.c:78-79 | the frames reserved are those up to the one that holds the kernel's end |
| Pmm.CutExactly | src/pmm.c:57-72 | of the frames a 32-bit address can name pmm_init frees exactly the usable ones of a region if and only if the region starts below 4 GB and is shorter or reaches past 4 GB even when cut, or starts higher and nothing is left of its length |
| Pmm.HighRegionMisread | src/pmm.c:57-72 | of a usable region from 4 GB on, shorter than 4 GB, the frames from 0 on are freed, which it does not hold |
| Pmm.HighMapMisread | src/pmm.c:57-72 | a map of two disjoint regions for which frames are freed twice and a frame is freed that is not in the map |
| Pmm.MapAsGiven | src/pmm.c:53-76 | if every region survives the cut, exactly the frames of the map are freed |
| Pmm.FrameAllocator.constructor | src/pmm.c:35-90 | for every memory map: exactly the frames freed for a region and above the kernel are clear, the counter is their number if and only if no frame was freed twice, and then the allocator is in order if they are one range of at most 2^19 frames |
| Pmm.FrameAllocator.AllocFrame | src/pmm.c:93-111 | hands out the least free frame, never frame 0 and never one in use; 0 exactly when the scan finds none |
| Pmm.FrameAllocator.FreeFrame | src/pmm.c:114-127 | gives a usable frame back once, a second free changes nothing; the account is intact afterwards if and only if the frame was usable |
| Pmm.FrameAllocator.FreeFrameCount | src/pmm.c:130-133 | the counters give exactly the number of clear bits |
| Paging.UserBit | src/paging.c:161-192 | the user bit tells a private page from every copy of a kernel entry |
| Paging.ExactUnlessShared | src/paging.c:161-165 | mapping a page keeps the account of frames exact if and only if the page was not private before |
| Paging.TranslateIs | src/paging.c:87-165 | a pointer of the kernel reaches the frame at its address if and only if the page there is not private, and else the private page |
| Paging.FreePointer | src/paging.c:64-94 | the pointer to a frame that is not handed out reaches it if and only if the page there is not private, and else a page that the task holds |
| Paging.MapsExactlyWhen | src/paging.c:161-165 | mapping through the pointer to the table keeps the account exact if and only if neither the page nor the page of the table is private |
| Paging.CoveredTableLeaks | src/paging.c:161-165 | if the table's page is private the frame mapped belongs to nobody afterwards |
| Paging.AddressSpaces.CloneKernelDirectory | src/paging.c:64-94 | fails, taking no frame, if and only if the next free frame does not exist or lies past 4 MB; else one copy of the kernel directory is written behind the pointer to the least free frame, and the space is in order if the pointer reaches that frame |
| Paging.AddressSpaces.GetOrCreateUserTable | src/paging.c:103-158 | where directory and new table are reached through their pointers, the region has a private table, new only if it had none and then a copy of the kernel's in the least free frame; it fails if and only if there was none and no frame below 4 MB comes next, and then keeps no frame; no page becomes private |
| Paging.AddressSpaces.MapUserPage | src/paging.c:161-165 | the word goes to the table or, where the table's page is private, to that page; if neither the table's page nor the page is private, exactly that page becomes private and its frame belongs to the space |
| Paging.AddressSpaces.FreeUserDirectory | src/paging.c:168-201 | frees exactly the private tables and pages; only the directory's own frame is left |
| Loader.MapPages | src/elf.c:149-167 | maps the pages a segment needs and no others with the least free frames in order; it ends early if and only if a frame is missing, and the machine stops if and only if one of them lies past 4 MB |
| Loader.LoadSegments | src/elf.c:110-191 | for a harmless program: how it ends, loaded, given up or with the machine stopped, is exactly what the segments and the free frames foretell; unless it stops, the account of frames is exact, the private pages leave kernel, directory and tables alone and the stack page is not private; loaded means that every page needed is mapped |
| Loader.MapStack | src/usermode.c:44-66 | exactly the stack page becomes private, or no frame is kept; how it ends is given exactly by the free frames and whether the region has a table |
| Loader.CoveringLeaks | src/elf.c:110-167 | after a page over the task's own table is mapped, the word for any further page goes into it and that page's frame is held by nobody |
| Loader.NotHarmless | src/elf.c:110-167 | two one-page segments that share no page, the first over the table, are such a program |
| Loader.StaysInsideExactly | src/elf.c:128-184 | every byte of the file part and the memory part of an accepted segment is written to a page the segment was given if and only if its end without the 32-bit cut does not pass the end page |
| Loader.NeededExactly | src/elf.c:129-149 | the pages that the loader maps for a segment are those that hold a byte of it if and only if it ends a page before the end of the address space |
| Loader.EmptySegment | src/elf.c:129-149 | a segment without bytes gets a page if and only if it starts inside one |
| Loader.BytesMapped | src/elf.c:149-167 | once a program is loaded every byte of every segment is on a private page |
| Loader.WrappedSegment | src/elf.c:128-187 | for every page-aligned x below 4 MB a segment from 0xFFC00000 + x to the top needs no page, is accepted, and its addresses lead to the physical pages from x to 4 MB |
| Loader.WrappedNotHarmless | src/elf.c:128-187 | one page at 0xFFFFF000 is loaded without complaint though it avoids all that the loader works with, and is not harmless |
| Loader.OrdinaryHarmless | userspace/linker.ld:11-21 | every program as it is linked, code at 0x300000 and data from the next page on, of any sizes that end below the stack, is harmless once its directory and the next free frame lie below 0x300000 |
| TaskLife.Kernel.CreateTask | src/task.c:147-159 | a stack and a directory, or neither, with heap and bitmap as before, which is so if and only if the heap has no room for the stack or no frame below 4 MB comes next; the directory is a copy of the kernel's if the creator's pointer reaches its frame |
| TaskLife.Kernel.RunProgram | src/elf.c:54-197 | for a harmless program: how it ends is exactly what heap, free frames, segments and arguments foretell; unless the machine stops the file buffer is gone and the account of frames exact, and in user mode every page needed and the stack page are mapped |
| TaskLife.Kernel.ReapTask | src/task.c:83-103 | returns the stack and every frame of the task |
| TaskLife.Kernel.WholeLife | src/task.c:83-191 | create, load a harmless program completely or partly, exit and reap leave the kernel heap and the frame bitmap exactly as before, unless the machine stops; whether a task is made and how its program ends are given exactly by the state at the start |
| TaskLife.CoveredMisses | src/elf.c:169-196 | if a page of kernel memory is private, the kernel's pointers into it reach a frame of the task and not the heap |
| TaskLife.ClonedIntoCreator | src/paging.c:64-94 | a creating task's pointer to the next free frame reaches it if and only if the task has no private page there; otherwise the clone is written into a page that the creator holds |
| Outcomes.PagesCounted | src/elf.c:149-167 | the page loop has a round for each page that a segment needs |
| Outcomes.RunsExactly | src/elf.c:54-197 | a program of segments in the first 4 MB runs if and only if its file and arguments fit and the free frames below 4 MB are at least its pages plus two; the machine stops exactly if a frame past 4 MB is free and those below run out after the table, before the stack page |
| Outcomes.TooLargeRefused | src/elf.c:133-138 | a program with a segment that reaches the stack page is never loaded |
| Heap.AlignUpEnough | src/heap.c:27-30 | a request is rounded up to at least itself if and only if it is at most 2^32 - 8 |
| Heap.TakenTiles | src/heap.c:49-101 | allocation keeps the tiling of the region, with no two free neighbours |
| Heap.FreedTiles | src/heap.c:104-139 | freeing with both merges keeps the tiling, with no two free neighbours |
| Heap.FreedAfterTaken | src/heap.c:73-139 | freeing a block just allocated restores the list exactly |
| Heap.TakenLive | src/heap.c:73-101 | allocation adds one live block and moves no other |
| Heap.FreedLive | src/heap.c:116-139 | freeing removes one live block and moves no other |
| Heap.LiveApart | src/heap.c:49-139 | live payloads never overlap and lie inside the region |
| Heap.MallocIs | src/heap.c:73-101 | allocation fails if and only if no free block fits, and the block is large enough if and only if the request is at most 2^32 - 8 |
| Heap.WastesLittle | src/heap.c:49-101 | a block handed out is at most 38 bytes larger than the request: 32 bytes or more left over become a free block of their own |
| Heap.HugeRequest | src/heap.c:73-101 | on every heap a larger request is taken for one of no bytes: it fails only if no block is free, and a block that can be split is cut to no bytes |
| Heap.RunTiles | src/heap.c:49-139 | over every run the blocks tile the region, and giving everything back in any order leaves the one initial block |
| Heap.RunWhole | src/heap.c:9-101 | over every run from a region whose size is a multiple of 8 every block starts and ends at a multiple of 8 |
| Heap.MallocThenFree | userspace/libc.c:220-284 | allocate and free restores the list, wherever the call finds the block |
| HeapMemory.KernelHeap.SplitBlock | src/heap.c:49-70 | the linked headers hold the list with the block cut in two, or unchanged if the rest is too small |
| HeapMemory.KernelHeap.Coalesce | src/heap.c:104-113 | the linked headers hold the list with the two blocks joined |
| HeapMemory.KernelHeap.KMalloc | src/heap.c:73-101 | first fit on the linked headers: the payload of the first block that fits, or null exactly if none does; the pointer is 8-byte aligned if the region is |
| HeapMemory.KernelHeap.KFree | src/heap.c:116-139 | the block is given back and merged with free neighbours on both sides; null does nothing |
| Usermode.CopyStrings | src/usermode.c:71-89 | every argument string lies on the page with its NUL where its pointer says |
| Usermode.EnterUsermode | src/usermode.c:16-110 | the size check is exact, every write stays on the page, and the program finds its argument count and strings through the frame |

## Left out

- FatChains.FreeChain: asks that the links reached stay inside the FAT; a link past its entries but below 0xFFF8 makes the driver read and write sectors behind the FAT.
- FatChains.FindLastCluster: asks for a complete chain; on a cyclic one the loop does not end.
- FatDriver.Volume.OpenWrite: requires that no other descriptor writes the same file and that the last name of the path does not start with 0xE5, whose entry no descriptor can be tied to; read descriptors and write descriptors are kept apart, and a read through a write descriptor is not modelled.
- FatMount.OpenEntry: the same condition on the last name.
- FatDriver.Volume.Mkdir: the same condition on the last name.
- FatDriver.Volume.Write: promises the step of a run only for writes in place; for the others it promises a well-formed volume, names and other files as before, the exact loss, and what FatWrite.Write says about the bytes.
- FatDriver.Volume.constructor: reading the boot sector in fat_init is not modelled; the geometry is a parameter with disjoint areas and at most 65280 FAT entries.
- TcpServer.Server.Receive: requires that the header length lies inside the segment.
- TcpServer.Server.Accept: one pass over the table; the wait for an interrupt between passes is not modelled.
- TcpServer.Server.Recv: starts where the wait for data is over; the wait itself is part of TcpRing.
- TcpRing.Delivers: covers the life of one connection; a new SYN resets the ring.
- Scheduler.StepKeeps: assumes, as kernel.c does, that task 0 never sleeps, waits or exits, and that a task switch is one step.
- Reaping.StepKeeps: task creation is serial, as the comment in task_create says.
- Pmm.FrameAllocator.constructor: promises an allocator in order only where no frame is freed twice and the frames freed are one range of at most 2^19; the counter is unbounded, so fewer than 4096 regions are meant; a bit of the bitmap is a boolean, the packing into 32-bit words and the halt without a memory map are not modelled.
- Loader.LoadSegments: asks for a harmless program (no page needed twice, none of the kernel's, the directory's or a table's, nothing written past the pages); whether a harmful one still leaves heap and bitmap intact depends on what its pages cover, and only the step of mapping a page has its exact condition. Contents of user pages are not modelled.
- TaskLife.Kernel.WholeLife: asks for a harmless program, for the same reason, and that the creator has no private page over kernel memory or the next free frame; other tasks do not run in between.
- TaskLife.Kernel.CreateTask: asks that the creator has no private page over kernel memory, where kmalloc works.
- Paging.AddressSpaces.GetOrCreateUserTable: asks that the pointers to directory and new table reach them; through a covered one the entry goes to a user page, whose contents are not modelled.
- Paging.AddressSpaces.MapUserPage: accessed and dirty bits are not modelled.
- HeapMemory.KernelHeap.KFree: asks for the null pointer or a live block.
- Usermode.EnterUsermode: argument lengths are unbounded integers.
- Failing disk reads and writes (the driver promises nothing there), fat_open, fat_list_entry, directory listing.
- Copying segment bytes into user memory, and the checks of the ELF file header.
- Device drivers, assembly, CPU tables, terminal output, system call dispatch, the shell.
- ARP, ICMP, DNS, routing and the UDP receive path: simple lookups and packet filling.
- User programs other than malloc and free.
