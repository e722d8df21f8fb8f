# miniOS: what the kernel's tables keep

Dafny models and proofs for the parts of miniOS, a 32-bit teaching kernel, whose correctness is a
matter of whole runs: copy-on-write paging over the frame allocator, the FAT16 driver, pipes, the
scheduler's lists, descriptor ownership, the process table, the two free-list allocators, the ATA PIO
driver with its drive, DiskFS on top of that driver, and the two path parsers.

Code that runs with interrupts off is one atomic step. Each part has the same two layers. One layer
is a value: a state, a function or relation for each operation, an invariant, one lemma per operation
that it keeps the invariant, and a theorem over every run. The other layer is imperative: a class with
the fields, arrays and loops of the C code, whose methods are proved to do to the state what the first
layer says. Device behaviour, allocation results and scheduling choices are parameters or are chosen
freely by the model.

A method that does what a function of the first layer says is worth what is known of that function.
The modules whose names end in Laws, and PipeCalls and FatLayout, therefore say what the functions
compute without naming how: in fields, bytes and results that a caller sees.

| files | part |
|---|---|
| Pmm, Paging, EagerCopy, AddressSpaces | frame allocator and copy-on-write paging |
| FatChains, FatImage, FatUpdates, FatGrowth, FatWrite, FatNames, FatDirectory, Fat16, FatFiles, FatMount, FatLayout, FatLaws | FAT16 |
| Pipe, PipeRuns, PipeCalls, PipeOwners | pipes, and pipes together with descriptors |
| TaskLists, Scheduler, SchedulerLaws | ready ring, blocked list, retired task |
| Descriptors, DescriptorLaws | descriptor tables and standard streams |
| ProcessTable, Processes, ProcessLaws | process life cycle, threads, spaces, waiting |
| ProcessTasks | the scheduler's lists and the process table together |
| Rings, Tiling, FreeList, Umalloc, HeapBlocks, KernelHeap, HeapLaws | linked lists and the two allocators |
| AtaDrive, Ata | the drive and the PIO driver |
| DiskTable, DiskImage, DiskSteps, DiskRuns, DiskLaws, DiskTearing, DiskFs | DiskFS |
| Paths, PathLaws | the path normaliser and the strict resolvers |
| Common | what several modules need |

The file system and the drive are stacked: the methods of DiskFs call those of Ata, so what DiskFS
promises rests on the port protocol and not on an assumed disk.

## Findings

Properties that the code does not have, each with an input that shows it and the exact condition
under which the property holds.

- paging_zero_user and paging_copy_to_user ignore write protection (paging.c:382-418). A store of theirs
  shows in this space alone exactly if the page is shared on purpose, no other entry maps its frame, or it
  stores the byte that is there (EagerCopy.KernelStoreRefinesIff). After a fork it shows in the child
  (EagerCopy.ForkedStoreShows, EagerCopy.ForkExample). The loader uses them on new spaces only.
- Names in a FAT16 directory are not always unique (fat16.c:369-385). Create looks for the name it is given,
  while the entry it stores may be shown under another: beside "a" it stores "a." as a second "a"
  (FatFiles.SameNameTwice). And when all sixteen nodes are open, a lookup of an existing name gives no node
  and create takes that for a new name (FatFiles.NameCreatedTwice). Names stay unique exactly if the new
  entry is hidden or no visible entry bears the name it will be shown under (FatFiles.CreateKeepsUnique).
- A file just created on FAT16 cannot always be found again (fat16.c:172-206, 241-263). A lookup returns its
  node exactly if the name has no space and no final dot, starts with neither a dot nor the byte 0xE5, and
  not every node was open (FatFiles.FileSystem.CreateThenFind). The name "a b" is lost
  (FatFiles.SpaceIsLost), and with sixteen files open so is "z" (FatFiles.NoNodeForNew).
- Redirecting a zombie leaks the nodes (process.c:486-509). After the zombie is reaped the counts are
  right exactly if it was given no node (Descriptors.RedirectedZombie, Descriptors.RedirectLeaks).
- The user allocator's rounding wraps around (user/umalloc.h:59-66). The units hold the request exactly if
  the rounded size stays below 2^32 (Umalloc.PayloadFits). A request for 0xFFFFFFFF bytes gets a header
  and no payload (Umalloc.WrappedRequest).
- A failed write of the DiskFS directory can bring back bytes of a removed file, or make the volume
  unmountable (diskfs.c:248-263). Slot 12 lies across the two directory sectors, and a removal that fails
  between them leaves the length in the unused entry. A creation that fails there can show the former
  bytes exactly if the slot is 12, its unused entry has a length and the mixture of the two tables is valid
  (DiskTearing.FailedCreateShows), and can leave a volume that no mount accepts exactly if the slot is 12
  and the mixture is not valid (DiskTearing.FailedCreateUnmountable). For a name of up to 27 characters the
  mixture is valid exactly if the old length is allowed for the kind (DiskTearing.ShortMixedIsOk). Inputs:
  DiskTearing.StaleBytesShow, DiskTearing.TornDirectory and DiskTearing.StaleExample. In every other slot a
  failed call is atomic (DiskTearing.FailureIsAtomic).
- The strict resolver takes paths of up to 127 characters and the normaliser returns at most 126 (fs.c:87-116,
  195-218). A path the strict resolver accepts has a normal form exactly if that is at most 126 characters
  long (Paths.StrictAgrees). The path "/" followed by 126 times "a" is one that only the first accepts
  (Paths.LongPath).

## Model

| member | source | states |
|---|---|---|
| Pmm.FrameAllocator.constructor | pmm.c:40-48 | every frame starts reserved, and at most 8192 frames are managed |
| Pmm.FrameAllocator.FirstFreeRun | pmm.c:23-38 | returns the lowest start above frame 0 of a run of that many free frames, and none exactly if there is no such run |
| Pmm.FrameAllocator.AllocBlocks | pmm.c:93-106 | fails exactly if no run is long enough; otherwise takes the lowest run, changes no other bit, and the used count stays the number of set bits |
| Pmm.FrameAllocator.FreeBlocks | pmm.c:112-131 | a malformed range changes nothing; otherwise exactly the frames of the range become free and the used count stays exact, also for frames that were free already |
| Pmm.FrameAllocator.InitRegion | pmm.c:50-73 | frames wholly inside the region become free, frame 0 never, all others keep their state |
| Paging.InstallKeepsInv | paging.c:319-341 | entering a free frame keeps the paging invariant: every frame is free, a table, mapped or the kernel's; page_ref + 1 is the number of entries mapping a frame; a writable unshared entry is its frame's only mapper |
| Paging.UnmapKeepsInv | paging.c:343-356 | removing an entry keeps the invariant: the frame becomes free exactly if this was its last mapper, and loses one reference otherwise |
| Paging.CowCopyKeepsInv | paging.c:83-104 | resolving a fault on a frame with several mappers by a copy keeps the invariant |
| Paging.RegrantKeepsInv | paging.c:83-104 | resolving a fault on a frame with one mapper by making the entry writable keeps the invariant |
| Paging.CloneKeepsInv | paging.c:245-280 | fork keeps the invariant, although it write-protects the parent and adds a mapper to every frame |
| Paging.DestroyKeepsInv | paging.c:282-309 | destroying a space keeps the invariant: frames whose only mapper it was and its tables become free, the others lose a reference |
| Paging.RefsAreFew | paging.c:21-28 | no frame ever has more mappers than there are spaces |
| Paging.SlotsArePages | paging.c:54-65 | the user addresses are exactly the first 4 MiB and the extension region, and two of them use the same entry exactly if they are in the same page |
| EagerCopy.ForkRefines | paging.c:245-280 | sharing every page read-only shows every space exactly what copying every page at fork shows |
| EagerCopy.CowIsInvisible | paging.c:83-104 | a resolved copy-on-write fault changes nothing that any space can see |
| EagerCopy.PokeRefines | paging.c:54-63 | a store through a writable entry reaches exactly its own page and the pages that alias it by sharing |
| EagerCopy.KernelStoreRefinesIff | paging.c:382-418 | finding: a store by the kernel through an entry, writable or not, looks like one to that page alone exactly if the page is shared, its frame has no other mapper, or the byte was there already |
| EagerCopy.ForkedStoreShows | paging.c:382-418 | finding: after every fork, a kernel store of another byte into an unshared page of the parent shows in the child |
| EagerCopy.ForkExample | paging.c:382-418 | finding: a concrete machine of seven frames, one space and one page, on which that happens |
| EagerCopy.SharedPageStartsAlone | paging.c:358-380 | a page newly marked shared aliases no other page, so only forks make aliases |
| EagerCopy.StepRefines | paging.c:67-104 | each of the operations (create, fork, destroy, activate, map, unmap, share, read, write with demand and copy-on-write faults, harmless kernel stores, kernel allocation) keeps the invariant and changes what the spaces see as its eager counterpart does |
| EagerCopy.StepSucceedsIff | paging.c:67-104 | each operation succeeds exactly if its condition on entries, reference counts and a frame being free holds; a write to a present page exactly if its entry is writable, its frame has no other mapper or a frame is free for the copy, and to an absent page exactly if the fault is for demand-mapped memory and a frame is free |
| EagerCopy.StepActivates | paging.c:282-317 | the space in use is the one last activated, until it is destroyed |
| EagerCopy.CopyOnWriteRefinesEagerCopy | paging.c:26-104 | main result: after every run of these operations, each succeeding exactly where StepSucceedsIff says, all spaces see the bytes of a machine that copies all pages at fork, the active space is the one last activated, and frame accounting and share counts are exact |
| EagerCopy.InstalledStateSatisfiesInv | paging.c:181-205 | the state after installation satisfies the invariant |
| EagerCopy.CloneThenDestroyRestores | paging.c:266-309 | cloning a space and destroying the clone restores every reference count and the set of free frames |
| EagerCopy.CountersHaveRoom | paging.c:21-28 | the 16-bit reference counters never reach their limit |
| AddressSpaces.PagingSystem.constructor | paging.c:181-205 | on any machine size the freshly installed system is valid, its user memory being the allocator's free frames |
| AddressSpaces.PagingSystem.CreateUserAddressSpace | paging.c:211-240 | either a new empty space with three table frames taken from the free ones, or no change with every frame given back |
| AddressSpaces.PagingSystem.CloneTable | paging.c:245-264 | the loop write-protects and copies exactly the unshared present entries and adds one reference to each frame |
| AddressSpaces.PagingSystem.CloneAddressSpace | paging.c:266-280 | the loops over entries do to the state exactly what Clone of the specification does, and keep it valid |
| AddressSpaces.PagingSystem.MapUserPage | paging.c:319-341 | an existing mapping is kept; otherwise a zeroed free frame is entered, or nothing changes if there is none |
| AddressSpaces.PagingSystem.ShareUserPage | paging.c:358-380 | a present page is accepted exactly if it is shared; otherwise a zeroed frame is entered as shared |
| AddressSpaces.PagingSystem.UnmapUserPage | paging.c:343-356 | the entry is cleared and its frame is given back exactly with its last reference |
| AddressSpaces.PagingSystem.DestroyUserAddressSpace | paging.c:282-309 | the loops over all entries release every frame once and free the tables; the state is that of Destroy |
| AddressSpaces.PagingSystem.ResolveCow | paging.c:83-104 | a fault outside the active space is not handled; inside, the outcome is that of the specification, with a frame taken from the free ones if one is needed |
| FatChains.ChainIsDistinct | fat16.c:91-114 | a chain that ends visits no cluster twice |
| FatImage.PatchFat | fat16.c:65-89 | storing a table entry changes that entry of the decoded volume and nothing else |
| FatImage.PatchDir | fat16.c:65-77 | storing inside a directory entry changes that entry of the decoded volume and nothing else |
| FatImage.PatchData | fat16.c:116-122 | storing inside a cluster changes those bytes of the decoded volume and nothing else |
| Fat16.Driver.ChainValid | fat16.c:98-114 | true exactly if the start is 0 or following the table reaches an end mark through valid clusters without a repeat; the step bound loses no chain |
| Fat16.Driver.AllocCluster | fat16.c:125-136 | the lowest free cluster, marked as the end of a chain and zeroed, or 0 exactly if none is free |
| Fat16.Driver.ExtendChain | fat16.c:416-433 | the extension loop reaches exactly the chain that the specification extends to, as long as clusters are free |
| Fat16.Driver.CopyIn | fat16.c:435-454 | the copy loop stores exactly the bytes of the request that lie below the end of the chain |
| Fat16.Driver.FreeChain | fat16.c:529-538 | frees exactly the clusters of the chain |
| Fat16.Driver.Rollback | fat16.c:472-493 | gives back exactly the clusters that this call added |
| FatWrite.RollbackRestores | fat16.c:472-493 | a write that stores nothing leaves table (up to the kind of end mark), entry, length and every file's bytes as before |
| FatWrite.WrittenContent | fat16.c:387-503 | write then read: the file reads as its old bytes with the data spliced in at the offset and zeros in a gap |
| FatWrite.OtherContent | fat16.c:387-503 | every other file reads as before |
| FatWrite.WriteKeepsWf | fat16.c:387-503 | a full, short or empty write keeps the volume well formed: chains in range, ending, disjoint, of exactly ceil(length / cluster size) clusters, zero beyond the length |
| Fat16.Driver.WriteEntry | fat16.c:387-503 | main result on writes: stores exactly as many bytes as the file's clusters and the free ones can hold beyond the offset, a prefix of the request; the file is then the sparse splice, every other file is unchanged; storing nothing changes nothing |
| Fat16.Driver.RemoveEntry | fat16.c:505-540 | refuses exactly if the chain is damaged; otherwise frees the chain and deletes the entry |
| Fat16.Driver.ReadChain | fat16.c:542-572 | returns exactly the file's bytes from the offset on, as many as asked for and present |
| FatNames.NameRoundTrip | fat16.c:172-206 | encoding to 8.3 and formatting back gives the name up to case exactly if it has no space and no final dot |
| FatDirectory.FindMisses | fat16.c:342-357 | a lookup misses exactly if no visible entry has the name |
| FatDirectory.StoredIsScanned | fat16.c:369-385 | a scan for a new name picks the entry just stored for it exactly if the name survives the 8.3 field and starts with neither the deletion mark nor a dot |
| FatDirectory.UniqueIffMissed | fat16.c:369-385 | storing any entry in the first free slot keeps the names that are shown unique exactly if the entry is hidden or no visible entry bears the name it is shown under |
| FatFiles.RemovedKeepsWf | fat16.c:505-540 | unlink keeps the volume well formed and removes that file only |
| FatFiles.RemovedFrees | fat16.c:529-538 | unlink makes exactly as many clusters free as the file had |
| FatFiles.CreatedKeepsWf | fat16.c:369-385 | create keeps the volume well formed, adds an empty file and changes no other |
| FatFiles.FileSystem.MakeNode | fat16.c:241-285 | a lookup reuses the entry's node or the next node nobody holds open, never an open one of another entry, and fails exactly if all are open |
| FatFiles.FileSystem.FindDir | fat16.c:342-357 | the node of the first visible entry of that name; none exactly if there is no such entry or the pool is exhausted |
| FatFiles.FileSystem.Read | fat16.c:542-572 | through a node: the bytes of the entry's file from the offset on |
| FatFiles.FileSystem.Write | fat16.c:387-503 | through a node: the contract of WriteEntry, and the node then describes the entry again |
| FatFiles.FileSystem.Unlink | fat16.c:505-540 | succeeds exactly for the name of a file that is not open; the file is gone, exactly its clusters are free, all others are unchanged |
| FatFiles.FileSystem.Create | fat16.c:369-385 | stores an entry exactly if the name has an 8.3 form, a slot is free, and the name is new or its entry could get no node; the file is empty, all others are unchanged; the stored entry gets a node exactly if not every node is open |
| FatFiles.CreatedIsFound | fat16.c:342-385 | after a create a lookup of the name reaches the new entry and has a node for it exactly if the name is recoverable and not every node was open |
| FatFiles.FileSystem.CreateThenFind | fat16.c:342-385 | finding: create and then finddir of the same name returns the new entry's node exactly if the name has no space, no final dot and no mark in front, and not every node was open |
| FatFiles.SpaceIsLost | fat16.c:172-206 | finding: the name "a b" is stored and is not recoverable |
| FatFiles.NoNodeForNew | fat16.c:241-263 | finding: a directory and node pool for which create stores "z" and neither create nor a lookup has a node for it |
| FatFiles.NameCreatedTwice | fat16.c:369-385 | finding: a directory and node pool for which create stores a second entry of an existing name |
| FatFiles.CreateKeepsUnique | fat16.c:369-385 | finding: for every name, a create that goes ahead keeps names unique exactly if the new entry is hidden or no visible entry bears the name it will be shown under; for a name that survives the 8.3 field, exactly if the name was not in use with the pool exhausted |
| FatFiles.SameNameTwice | fat16.c:369-385 | finding: beside "a" the name "a." is created, whatever nodes are open, and both are shown as "a" |
| FatFiles.ClustersConserved | fat16.c:125-136 | in every well-formed volume free clusters, clusters of files and the other ones add up to the volume |
| FatMount.NoReservedCluster | fat16.c:627-632 | an acceptable image that fits in memory has no cluster number in the reserved range |
| FatMount.MountFits | fat16.c:583-647 | every image that is mounted keeps table, root directory and clusters apart, inside the image and below the reserved cluster numbers |
| FatLayout.BootRoundTrip | fat16.c:599-606 | the parameters read from a boot sector laid out as in the FAT specification are those written there |
| FatLayout.LayoutIsFound | fat16.c:583-647 | round trip: an image made of boot sector, reserved sectors, tables, root directory and data is accepted, and the driver finds each part where it was put |
| FatLayout.ClusterCount | fat16.c:627-632 | as many clusters are used as both the table and the data have room for |
| FatLayout.EntryIsFound | fat16.c:140-161 | in such an image entry e of the decoded root directory is the one written there |
| FatLayout.TableIsFound | fat16.c:79-89 | entry c of the decoded table is the one written in the first copy |
| FatLayout.ClusterIsFound | fat16.c:116-123 | cluster c of the decoded volume is the (c - 2)-th of the data |
| FatLaws.FileIsItsClusters | fat16.c:542-572 | a file is the beginning of its clusters put one behind the other in the order of the chain |
| FatLaws.WriteFillsVolume | fat16.c:387-503 | a write stores everything if file and data fit into the clusters that nothing else occupies, and otherwise exactly what fits |
| FatLaws.NameEqIff | fat16.c:334-340 | names match exactly if they differ in nothing but the case of ASCII letters |
| FatLaws.FieldIsCapital | fat16.c:189-207 | the name field is the base in eight bytes and the extension in three, in capitals and followed by spaces; a final dot makes no difference |
| FatLaws.KindOfEntry | fat16.c:209-216 | an entry is shown exactly if it is in use, no dot entry and no volume label or long-name part; it is a file exactly if it also lacks the directory flag |
| FatMount.Installer.Release | fat16.c:574-581 | gives back exactly the frames of the copy |
| FatMount.Installer.Install | fat16.c:583-651 | mounts exactly the acceptable images for which there is memory, in the lowest run of frames that is long enough; what was mounted before and a rejected image keep no frame, and no other frame changes hands |
| Pipe.Ring.constructor | pipe.c:12-22 | a new pipe is empty with one reader and one writer |
| Pipe.Ring.Read | pipe.c:48-76 | between two blocking points: takes the oldest bytes, as many as asked for and present, or parks because the pipe is empty with a writer left, or ends because of a kill; with the wake-up of writers and the release of the reference |
| Pipe.Ring.Write | pipe.c:78-110 | between two blocking points: stores the next bytes of its data, as many as fit, in order, and ends exactly if all are stored, no reader is left or a kill is pending; with the wake-up of readers |
| Pipe.Ring.CloseRead | pipe.c:124-132 | one reader less; freed exactly with the last reference of both kinds; writers are woken exactly if no reader is left |
| Pipe.Ring.CloseWrite | pipe.c:134-142 | one writer less; freed exactly with the last reference of both kinds; readers are woken exactly if no writer is left |
| PipeRuns.StepKeepsInv | pipe.c:24-142 | every step (dup, close, start, resume, kill) of every task keeps counts, wake-up conditions, order and lifetime |
| PipeRuns.PipeIsSafe | pipe.c:24-142 | main result over every interleaving: bytes delivered followed by the ring contents are the bytes accepted; nobody is parked on data unless the pipe is empty with a writer alive, nor on space unless it is full with a reader alive; the pipe is freed exactly once, with the last descriptor and operation (what each call accepts and delivers is in PipeCalls) |
| PipeRuns.NothingAfterFree | pipe.c:24-46 | once the pipe is freed no step that touches it is possible |
| PipeRuns.ParkedCanBeWoken | pipe.c:33-110 | for a parked task there is an open descriptor or an unparked operation at the other end |
| PipeCalls.WriteStep | pipe.c:78-110 | each step of a write that has stored put bytes adds exactly data[put..put'] to the bytes accepted; it then waits, returns put', or dies because its task was killed |
| PipeCalls.ReadStep | pipe.c:48-76 | each step of a read waits on an empty pipe with a writer left, or returns the oldest min(length, available) bytes, none only without a writer, or dies because its task was killed |
| PipeCalls.OtherStep | pipe.c:24-142 | a step of any other task leaves the call as it is, but that it may be woken |
| PipeCalls.WriteReturns | pipe.c:78-110 | main result over every run: a write that returns n has put exactly the first n bytes of its data into the pipe, over however many blocks, and n is their number unless no reader was left; one whose task was killed has put in a prefix |
| PipeCalls.ReadReturns | pipe.c:48-76 | main result over every run: a read returns the oldest min(length, available) bytes, and nothing only at end of file |
| PipeCalls.OnlyCallsMoveBytes | pipe.c:24-142 | nothing but a write adds bytes and nothing but a read takes any |
| PipeOwners.FreedWithLastOwner | pipe.c:24-28 | over every run of descriptor changes and pipe operations together: the pipe is freed exactly if no descriptor or stream of any process holds an end and no operation is in flight |
| PipeOwners.NewPipeIsOwned | syscall.c:391-417 | after sys_pipe the two new descriptors are the only owners |
| FreeList.InsertKeepsInv | user/umalloc.h:89-115 | linking a block into its place keeps the circular list address-sorted and disjoint |
| FreeList.MergeKeepsInv | user/umalloc.h:103-114 | merging two touching free blocks keeps the invariant with one pair less to merge |
| FreeList.SplitKeepsInv | user/umalloc.h:59-87 | cutting the tail off a free block keeps the invariant |
| Umalloc.ReleasedFacts | user/umalloc.h:89-115 | free keeps the list maximally coalesced, touches no other live block and leaves a free block at least as large |
| Umalloc.PayloadFits | user/umalloc.h:59-66 | finding: the units computed for a request hold it exactly if rounding does not wrap around in 32 bits; they never exceed it by a unit |
| Umalloc.WrappedRequest | user/umalloc.h:59-66 | finding: every other request, 0xFFFFFFFF bytes among them, is granted a bare header |
| Umalloc.ServedUpTo | user/umalloc.h:38-57 | a request that does not wrap can be served from new memory exactly if sbrk gives it and it is at most 0x7FFFFFF0 bytes |
| Umalloc.Allocator.Free | user/umalloc.h:89-115 | a null pointer changes nothing; otherwise the block is free and coalesced and all other live blocks keep place and size |
| Umalloc.Allocator.MoreCore | user/umalloc.h:38-57 | at least 1024 units of fresh memory become free, or nothing changes |
| Umalloc.Allocator.Malloc | user/umalloc.h:59-87 | fails exactly for 0 or if nothing fits and the heap cannot grow; otherwise hands out a block that was not live, after growing at most once; both searches terminate |
| Umalloc.UnitsPartitioned | user/umalloc.h:38-115 | every unit obtained lies in exactly one block, free or live, so live payloads never overlap |
| TaskLists.BlockKeepsInv | task.c:151-194 | parking the current task keeps the lists, provided it is not idle and not marked |
| TaskLists.WakeOneIsFair | task.c:196-211 | the task woken has waited longest of those on the channel |
| TaskLists.WakeAllWakes | task.c:213-228 | nobody stays parked on the channel and everybody else stays parked |
| TaskLists.KillReachesAll | task.c:260-294 | after a kill every live task of the process is ready and marked |
| TaskLists.StepKeepsInv | task.c:16-371 | every operation keeps: each live task once in exactly one list, in the matching state; no marked task parked; blocked list oldest first; current and idle ready |
| TaskLists.SchedulerIsSound | task.c:16-371 | main result: this holds in every state of every run |
| TaskLists.FreedOnlyWhenGone | task.c:16-26 | a step frees only the retired task, which is in neither list and is not current before or after |
| TaskLists.BlocksAreConserved | task.c:94-145 | in every run the blocks allocated for tasks are those freed, once for each allocation, and those in use, with blocks being reused |
| SchedulerLaws.EveryTaskHasItsTurn | task.c:315-327 | from every sound state each ready task becomes current within as many calls of schedule as there are ready tasks |
| SchedulerLaws.BlockLaw | task.c:151-194 | a task that blocks is last in the blocked list, on its channel; another ready task runs and nothing else changes |
| SchedulerLaws.StaysBlocked | task.c:151-294 | it stays there until its channel is signalled, it is woken by name or its process is killed |
| SchedulerLaws.WokenIsReady | task.c:47-60 | a woken task is ready behind the head of the ring, of the same process, and marked if it was woken by a kill |
| SchedulerLaws.KillSpares | task.c:260-294 | a kill leaves every task of another process as and where it is |
| SchedulerLaws.WakeTaskLaw | task.c:230-248 | task_wake_task makes exactly a blocked task ready |
| SchedulerLaws.WakeTaskSpares | task.c:230-248 | it moves no other task |
| SchedulerLaws.CreateLaw | task.c:94-145 | a new task is ready behind the head of the ring, belongs to its process and is not marked |
| SchedulerLaws.ExitLaw | task.c:329-371 | a task that exits is in no list and is the retired one; the next one runs and every other keeps its place |
| Scheduler.Tasks.AddReadyTask | task.c:47-60 | the pointer stores insert the task behind the head of the ring |
| Scheduler.Tasks.WakeFirst | task.c:196-211 | the search and unlinking do what WakeOne says |
| Scheduler.Tasks.WakeChannel | task.c:213-228 | the loop over the changing list does what WakeAll says |
| Scheduler.Tasks.WakeThis | task.c:230-248 | wakes the task exactly if it is blocked |
| Scheduler.Tasks.KillProcess | task.c:260-294 | both loops do what KillBlocked says, and the result is the number woken |
| Scheduler.Tasks.BlockCurrent | task.c:151-194 | the task is unlinked from the ring and appended to the blocked list |
| Scheduler.Tasks.BlockKillable | task.h:82-91 | a marked task exits instead of being parked |
| Scheduler.Tasks.ReapRetired | task.c:16-26 | the retired task's block is given back and the lists do not depend on it |
| Scheduler.Tasks.Switch | task.c:315-327 | reaps, and the next task of the ring becomes current |
| Scheduler.Tasks.TaskExit | task.c:329-371 | the previous retired task is reaped, the current one leaves the ring and becomes retired |
| Scheduler.Tasks.CreateTask | task.c:94-145 | a task in a block that is not in use, perhaps one freed before, joins the ring |
| Descriptors.AcquireConserves | syscall.c:51-86 | taking a reference and storing it in an empty cell keeps every count equal to the number of holders |
| Descriptors.ReleaseConserves | syscall.c:67-78 | emptying a cell and dropping its reference keeps every count equal to the number of holders |
| Descriptors.Tables.OpenFile | syscall.c:80-86 | the lowest free descriptor holds the node; fails without a change exactly if none is free; counts stay exact |
| Descriptors.Tables.Close | syscall.c:520-529 | exactly a held descriptor is closed |
| Descriptors.Tables.Dup | syscall.c:422-445 | the lowest free descriptor shares what the old one holds |
| Descriptors.Tables.Dup2 | syscall.c:449-518 | the cells afterwards for every pair of descriptors, streams included; the wrong pipe end is refused; counts stay exact |
| Descriptors.Tables.MakePipe | syscall.c:391-417 | both ends get a descriptor, or none with both ends closed |
| Descriptors.Tables.Fork | process.c:225-295 | the child holds what the parent holds with references of its own; a failed fork gives everything back |
| Descriptors.Tables.CopyFiles | syscall.c:542-561 | the child's descriptors are the parent's, each with a reference |
| Descriptors.Tables.Exit | process.c:116-174 | a process that ends holds nothing and every count is exact |
| Descriptors.Tables.Redirect | process.c:486-509 | the new stream nodes are held; the table stays tidy exactly if the process is running or gets no node |
| Descriptors.ReapConservesIff | process.c:80-94 | releasing a slot keeps the counts exact exactly if the slot held nothing |
| Descriptors.RedirectedZombie | process.c:486-509 | finding: a zombie redirected and then reaped leaves the counts exact exactly if it was given no node |
| Descriptors.RedirectLeaks | process.c:486-509 | finding: a concrete table and redirect after which a node stays open that nobody holds |
| DescriptorLaws.PutAssigns | syscall.c:51-86 | putting something into a descriptor changes what that descriptor of that process stands for, and nothing else |
| DescriptorLaws.LowestDescriptor | syscall.c:80-86 | the descriptor that open and dup return is the lowest that stands for nothing; there is none exactly if all eight are in use |
| DescriptorLaws.TwoDescriptors | syscall.c:391-417 | pipe succeeds exactly if two descriptors stand for nothing |
| DescriptorLaws.Dup2Assigns | syscall.c:449-518 | dup2 is accepted exactly if the old descriptor stands for something and the new one may stand for it; then both stand for it, with the offset, and every other stands for what it did |
| DescriptorLaws.RedirectAssigns | process.c:486-509 | after a redirect the streams stand for the files, unless they are pipes; no other descriptor changes |
| ProcessTable.PidSearchSucceeds | process.c:49-57 | while a slot is free the search finds a positive pid that no process has, also across the wrap |
| ProcessTable.LaunchKeepsInv | process.c:196-223 | a new process keeps the table sound |
| ProcessTable.ExecFreesOwnSpace | process.c:297-335 | exec is refused while threads share the space; otherwise the old space is destroyed, no other task had it and no task has it afterwards |
| ProcessTable.TaskExitKeepsInv | process.c:176-194 | a task's exit keeps the table sound, whether or not it is the last of its process |
| ProcessTable.SpaceDestroyedOnce | process.c:604-614 | the space is destroyed exactly when the last task of the process goes, main task or thread, and no task or process has it afterwards |
| ProcessTable.StepKeepsInv | process.c:36-415 | every operation (launch, thread, exit, exec, waitpid, reap, detach, wake) keeps the table sound |
| ProcessTable.TableIsSound | process.c:36-415 | main result, in every state of every run: pids positive and distinct; positive parents running; tasks and thread counts right; running processes have spaces of their own; nobody parked in waitpid while a matching zombie exists |
| ProcessTable.SpacesAreConserved | process.c:116-194 | in every run the spaces given to processes are those destroyed, once for each time given, and those of running processes, with spaces being reused |
| ProcessTasks.TellKeepsLink | process.c:165-171 | SIGCHLD to the main task and the signal on waitpid_event unpark exactly the parent's waiters |
| ProcessTasks.ExitKeepsLink | task.c:329-371 | task_exit with on_exit keeps the lists and the table in agreement: the task is gone from both, exactly the right waiters are woken |
| ProcessTasks.StepKeepsInv | process.c:116-415 | every step of lists and table together keeps: the tasks of processes are the listed tasks that have a process, and those parked in waitpid are those blocked on their process's waitpid_event |
| ProcessTasks.KernelIsSound | process.c:116-415 | main result: in every run of scheduler and process table together this holds, both are sound, and the spaces given to processes are those destroyed once and those of running processes |
| ProcessTasks.ListedTaskHasSpace | task.c:28-32 | the space activated for a listed task is one that a running process owns |
| ProcessTasks.NoWaiterIsForgotten | process.c:374-415 | a task blocked on a waitpid_event has no zombie it waits for: no wake-up is lost |
| ProcessTasks.ExitWakes | process.c:116-194 | when a task of a process ends, a blocked task is woken exactly if it waits for a thread of that process and this was one, or if the process ends with it and the task waits for the process, waits for a child of the parent or is the parent's main task |
| ProcessTasks.DestroyedSpaceIsUnused | task.c:357-366 | when a step destroys a space, no task in the ready ring or the blocked list runs in it, so neither does the current one |
| ProcessTable.ZombiesAreAlone | process.c:116-174 | no zombie will reap itself and none has children |
| ProcessLaws.LaunchLaw | process.c:196-223 | a process is made exactly if a slot is unused and a task could be created: running, with a new pid, that parent, one task and that space; every other process stays as it is |
| ProcessLaws.ThreadLaw | process.c:616-637 | a new thread is counted in its process and runs in its space; nothing else changes |
| ProcessLaws.WaitpidLaw | process.c:374-415 | waitpid releases the first zombie it asks for, blocks only while there is such a child and no such zombie, and changes nothing else |
| ProcessLaws.ReapAndDetachLaw | process.c:337-484 | what process_wait collects is released, and it is a zombie of that pid; process_detach releases a zombie and makes a running process a child of nobody that reaps itself; no other process changes |
| ProcessLaws.ExitLaw | process.c:116-194 | a process ends exactly with its last task: zombie with the status of its main task, or released if nobody is to wait; its children are released if zombies and otherwise orphaned; its space is destroyed then and only then |
| ProcessLaws.StatusIsTheExit | process.c:116-194 | main result: in every state of every run a zombie's status is the one its main task exited with, while that process has been in the slot |
| Processes.Table.AllocatePid | process.c:49-57 | the bounded search with wrap returns what AllocPid says |
| Processes.Table.Start | process.c:196-223 | succeeds exactly if a task could be created and a slot is free; the pid is new |
| Processes.Table.FinishExit | process.c:116-174 | children are orphaned or released, the slot becomes a zombie or is released, the parent's waiters are woken |
| Processes.Table.OnExit | process.c:176-194 | does what TaskExit says for main tasks and threads |
| Processes.Table.CreateThread | process.c:616-637 | one more thread of the process, in its space |
| Processes.Table.ExecReset | process.c:297-335 | succeeds exactly without threads; the space is replaced |
| Processes.Table.WaitTurn | process.c:374-415 | in fields of the slots: returns pid and status of the first zombie whose parent is the caller and whose pid is the one asked for, or any if none was, and releases that slot only; returns -1 exactly if there is no such child, 0 if not to wait, and blocks otherwise |
| Processes.Table.DetachPid | process.c:468-484 | a zombie is released, a running process will reap itself |
| HeapBlocks.MergeKeepsSound | heap.c:15-27 | merging two touching free blocks keeps the list sorted, disjoint and over the same bytes |
| HeapBlocks.InsertKeepsSound | heap.c:29-44 | a new block in its place keeps the list sorted and disjoint |
| KernelHeap.MergeAll | heap.c:15-27 | the merge pass leaves no two touching blocks free, over the same bytes, and touches no block in use |
| KernelHeap.GrowThenServe | heap.c:74-122 | after a successful growth the second search always finds a fit |
| KernelHeap.AllocKeepsInv | heap.c:74-122 | fails exactly if nothing fits and the heap cannot grow; otherwise the block was not in use before, is large enough, and blocks in use keep their sizes |
| KernelHeap.HeapIsSound | heap.c:10-133 | main result, in every state of every run: blocks are in address order, disjoint, and no two touching ones are free |
| KernelHeap.BlocksAreTheGrants | heap.c:46-68 | in every run a byte lies in a block exactly if the frame allocator granted it |
| KernelHeap.BytesAreThePages | heap.c:46-68 | in every run headers and payloads add up to heap_pages * 4096 |
| HeapLaws.RoundedUp | heap.c:74-80 | a request is rounded to the least multiple of four that is not below it |
| HeapLaws.MallocFailsIff | heap.c:74-122 | with regions that are pages, kmalloc fails exactly for 0, for a request within 3 of the largest size, and if no free block has that many bytes and none can be obtained |
| HeapLaws.MallocGives | heap.c:74-122 | the block handed out has at least the bytes asked for, was not in use, and is 4-aligned if the regions are; blocks in use before keep place and size |
| HeapLaws.MallocIsTight | heap.c:109-122 | it has less than a header and eight bytes more than was asked for |
| HeapLaws.FreeGives | heap.c:124-133 | after kfree the block is not in use, some free block is at least as large, and every other block in use keeps place and size |
| HeapLaws.FreedCanBeHad | heap.c:74-133 | memory that has been freed can be had again without growing |
| HeapLaws.RunIsAligned | heap.c:10-133 | in every run whose regions are pages all blocks and sizes are multiples of four |
| KernelHeap.Heap.MergeFree | heap.c:15-27 | the pointer loop does what the merge pass of the specification does |
| KernelHeap.Heap.InsertBlock | heap.c:29-44 | the pointer walk puts the block in its address order |
| KernelHeap.Heap.HeapGrow | heap.c:46-68 | the new pages become a free block, merged with its neighbours, or nothing changes |
| KernelHeap.Heap.Kmalloc | heap.c:74-122 | does what Malloc of the specification says, with overflow checks, initialisation, first fit, splitting and one growth, and keeps the heap sound; what that gives the caller is in HeapLaws.MallocGives and HeapLaws.MallocFailsIff |
| KernelHeap.Heap.Kfree | heap.c:124-133 | does what Freed of the specification says and keeps the heap sound |
| AtaDrive.PolledFacts | ata.c:39-60 | polling the status changes no sector |
| Ata.AddressRoundTrip | ata.c:147-153 | the four address registers hold the sector number |
| Ata.Driver.WaitNotBusy | ata.c:39-47 | success means a live drive that is not busy; a prompt drive is always found so |
| Ata.Driver.WaitData | ata.c:49-60 | success means a data phase; no sector changes |
| Ata.Driver.WaitIdle | ata.c:78-87 | success means the drive takes a command; on a prompt drive that does not want data it always succeeds, whatever was left over |
| Ata.Driver.Install | ata.c:89-129 | the drive is usable only with the capacity it identifies itself with |
| Ata.Driver.ReadSector | ata.c:131-170 | against any drive: success delivers the requested sector; no sector ever changes; on a prompt drive that does not want data the call succeeds and leaves the drive so |
| Ata.Driver.WriteSector | ata.c:172-234 | against any drive: success means stored and flushed; no other sector ever changes and this one only to the data; on a prompt drive that does not want data the call succeeds and leaves the drive so |
| DiskTable.NameValid | diskfs.c:83-91 | true exactly for a C string of 1 to 31 bytes without a slash |
| DiskTable.ParentChainValid | diskfs.c:120-133 | accepts exactly the slots whose parents are directories in use up to the root and do not include the slot; the depth bound loses no chain |
| DiskTable.ParentsAreAcyclic | diskfs.c:120-133 | no directory occurs twice on the way to the root |
| DiskTable.EntriesValid | diskfs.c:151-177 | true exactly if every entry is well formed and below the root and siblings have different names |
| DiskTable.FindChild | diskfs.c:93-103 | the first entry of that parent and name; none exactly if the name is not valid or not there |
| DiskTable.CreateKeepsValid | diskfs.c:339-362 | creating keeps the table valid |
| DiskTable.RemoveKeepsValid | diskfs.c:364-376 | removing a file or an empty directory keeps the table valid |
| DiskTable.ResizeKeepsValid | diskfs.c:500-559 | a new permitted length keeps the table valid |
| DiskImage.TableRoundTrip | diskfs.c:231-263 | the directory read from the bytes written is the directory |
| DiskImage.SuperblockRoundTrip | diskfs.c:265-269 | the superblock read from the bytes written is the superblock |
| DiskSteps.SealedIsOk | diskfs.c:70-81 | a sealed superblock passes its own checksum |
| DiskSteps.NextKeepsInv | diskfs.c:231-376 | every call, transfers failing at will, keeps: a mounted volume is valid and is on the drive as it is in memory |
| DiskSteps.RebootsKeepsInv | diskfs.c:282-337 | a reboot after a power cut finds the table and generation that were durable |
| DiskRuns.RemountReproduces | diskfs.c:320-337 | main result: in every run, mounting a mounted volume again succeeds and finds the same entries, generation and files |
| DiskRuns.RunIsDurable | diskfs.c:271-280 | in every run that mounts only mounted volumes the table survives a power cut |
| DiskRuns.RunRefines | diskfs.c:470-559 | main result: every run on a formatted volume that stays mounted, with refused calls, failing data transfers and power cuts, is a run of a table of sparse files in which a failed write leaves each byte old or new |
| DiskRuns.FormerBytesNeverShow | diskfs.c:500-559 | in every such run each byte of each file is zero or was written at that place since the slot has been in use |
| DiskRuns.RunReplays | diskfs.c:470-559 | if each call succeeds or changes nothing, the files are exactly those that the successful calls made |
| DiskRuns.RefusedChangesNothing | diskfs.c:339-376 | a refused call changes nothing |
| DiskLaws.SpellsIff | diskfs.c:83-91 | the text of a name buffer is the string before its first zero byte |
| DiskLaws.CreateIff | diskfs.c:339-362 | a creation is carried out exactly if a slot shows no file, the name has 1 to 31 characters and no slash, the parent is the root or a directory that is shown, and nothing of that name is shown there |
| DiskLaws.RemoveIff | diskfs.c:364-376 | a removal is carried out exactly for a file or directory of that kind that is shown, is not open and contains nothing |
| DiskLaws.WriteIff | diskfs.c:500-510 | a write is carried out exactly on a file that is shown and within 2048 bytes |
| DiskLaws.RunIsAdmitted | diskfs.c:339-376 | main result: in every run, transfers failing at will, a call on a mounted volume succeeds only if the files that are shown admit it, and otherwise changes nothing at all |
| DiskLaws.FileIsItsSectors | diskfs.c:470-498 | a file is the beginning of its four sectors from 16 + 4 * slot on |
| DiskLaws.DamageIsNoticed | diskfs.c:70-81 | a superblock in which one word has been damaged is not accepted |
| DiskLaws.GenerationCounts | diskfs.c:271-280 | in every run on a formatted volume that stays mounted the generation is 1 plus the number of changes since the format, modulo 2^32, also across power cuts |
| DiskTearing.MountAfterTear | diskfs.c:248-280 | after a failed write of the tables a mount finds the old table, the new one, or the first sector of the new with the second of the old |
| DiskTearing.OtherSlotsAreWhole | diskfs.c:248-263 | then every slot but the one that lies across both sectors is old or new |
| DiskTearing.FailedCreateFound | diskfs.c:339-362 | however a creation fails, after a mount the slot is free or empty, or it is the straddling one and holds exactly the torn entry with the former bytes |
| DiskTearing.FailedCreateShows | diskfs.c:339-362 | finding: for every kind, parent and name, a failed creation and a mount can bring bytes into the new node exactly if the slot is the straddling one, its unused entry has a length, the mixture of the two tables is valid, and nothing is open |
| DiskTearing.MixedIsOk | diskfs.c:151-177 | the mixture is valid exactly if the torn entry is well formed and no sibling bears its name |
| DiskTearing.ShortMixedIsOk | diskfs.c:151-177 | for a name that ends in the first sector the mixture is valid exactly if the old length is allowed for the kind: at most 2048 for a file, 0 for a directory |
| DiskTearing.FailedCreateUnmountable | diskfs.c:320-337 | finding: a failed creation can leave a volume that no mount accepts exactly if the slot is the straddling one and the mixture is not valid |
| DiskTearing.TornDirectory | diskfs.c:339-362 | finding: on every volume of the kind below, a torn removal and a torn creation of a directory leave a volume that cannot be mounted |
| DiskTearing.FailureIsAtomic | diskfs.c:339-376 | a creation or removal that fails in any other slot is atomic: the next mount finds the files as before or as if it had succeeded |
| DiskTearing.StaleBytesShow | diskfs.c:248-280 | finding: on every volume of this kind two torn calls make the former owner's bytes show |
| DiskTearing.StaleExample | diskfs.c:248-280 | finding: a concrete volume of this kind, whose former byte is 7 |
| DiskFs.Volume.WriteDirectory | diskfs.c:248-263 | the sectors afterwards are the old ones with the first one or two directory sectors written; success means both |
| DiskFs.Volume.WriteTables | diskfs.c:271-280 | mounted afterwards exactly if all was written, and then also safe from a power cut; on a working drive all is written |
| DiskFs.Volume.ReadDirectory | diskfs.c:231-246 | the entries are those in the sectors, accepted exactly if valid; a working drive delivers them |
| DiskFs.Volume.Mount | diskfs.c:320-337 | refused with open files; succeeds only with a superblock and table that are on the sectors and valid; if the drive delivers, as a working one does, fails only if there is none |
| DiskFs.Volume.Format | diskfs.c:292-318 | an empty volume of generation 1, or unmounted; on a working drive it succeeds exactly if nothing is open |
| DiskFs.Volume.CreateEntry | diskfs.c:339-362 | refused exactly for the reasons in the code; otherwise the first free slot gets the entry and the tables are written; on a working drive it succeeds exactly if it is not refused and a slot is free |
| DiskFs.Volume.RemoveEntry | diskfs.c:364-376 | refused exactly if not mounted, not such an entry, open, or a directory with children; on a working drive it succeeds otherwise |
| DiskFs.Volume.ReadSlot | diskfs.c:470-498 | the file's bytes from the offset on, as many as asked for and present, unless a transfer fails, which it does not on a working drive |
| DiskFs.Volume.WriteData | diskfs.c:519-553 | the sector loop makes the file the sparse splice and touches no other sector; if it stops early each byte is old or new, on the drive and after a power cut |
| DiskFs.Volume.WriteSlot | diskfs.c:500-559 | refused exactly outside the cap or for no file; success is the splice with the tables written; a failed data transfer leaves the tables alone; on a working drive it succeeds exactly if it is not refused and the volume is mounted or the data empty |
| Paths.Pop | fs.c:166-170 | dropping characters back to the last slash leaves the path without its last component, and the empty path as it is |
| Paths.Apply | fs.c:174-193 | the loop applies the components in order, what each does being stated in PathLaws; fails exactly if one does not fit |
| Paths.ResolvePath | fs.c:195-218 | succeeds exactly if there is no empty component and neither a step nor the result overflows; the buffer then holds the path that PathLaws characterises, with a terminator |
| Paths.ResolvedNames | fs.c:174-193 | what is left of any path are names: not empty, no slash, neither . nor .. |
| Paths.ResolveIsIdempotent | fs.c:195-218 | normalising a normal form gives it back, from whatever directory |
| Paths.ResolveComposes | fs.c:195-218 | resolving a path in the directory that another resolves to is resolving the two joined, for every two paths; one fails exactly if the other does |
| PathLaws.EnterLaw | fs.c:174-218 | one more component that is a name resolves to the entry of that name in the directory resolved before, unless that is too long |
| PathLaws.DotLaw | fs.c:174-218 | one more "." changes nothing |
| PathLaws.UpLaw | fs.c:166-218 | one more ".." always resolves, to the directory of which the path resolved before is an entry, and to the root at the root |
| PathLaws.UpUndoesText | fs.c:166-218 | path + "/" + name + "/.." resolves as path does, wherever path + "/" + name resolves |
| PathLaws.AbsoluteLaw | fs.c:195-218 | a path that starts at the root resolves the same from every directory |
| PathLaws.DoubleLaw | fs.c:195-205 | a path with an empty component is refused |
| PathLaws.StrictIff | fs.c:44-116 | the strict resolvers take exactly the root and the short enough paths of good components with single slashes between them |
| PathLaws.FollowIff | fs.c:87-116 | a node is found exactly if a chain of lookups leads from the root to it, all nodes before it being directories |
| PathLaws.FollowAllIff | fs.c:57-85 | a parent is found exactly if such a chain of directories leads to it |
| Paths.ParseComponent | fs.c:44-55 | accepts exactly a component of 1 to 127 characters that is neither . nor .. |
| Paths.ResolveFs | fs.c:87-116 | finds exactly what following the components from the root leads to, all but the last being directories; nothing for a malformed path |
| Paths.ResolveParentFs | fs.c:57-85 | the directory that all components but the last lead to, and the last component |
| Paths.ParentAgrees | fs.c:57-116 | both resolvers see the same node: what resolve_fs finds is what the parent found by the other finds under the last component |
| Paths.NormaliserAgrees | fs.c:87-116 | the strict resolver accepts everything the normaliser returns and reads it as the same names |
| Paths.StrictAgrees | fs.c:87-116 | finding: a path the strict resolver accepts has a normal form exactly if that is at most 126 characters long, and then both lead to the same node |
| Paths.LongPath | fs.c:195-218 | finding: a path of 127 characters that the strict resolver accepts and the normaliser refuses |

## Left out

- Ata.Driver.ReadSector: the drive of the model may die when a command is written or with the last word of
  a data-out transfer, but not in the middle of a data-in transfer; there ata_read_sector would report
  success with words of 0xFFFF (ata.c:160-168).
- DiskRuns.FormerBytesNeverShow: runs in which a write of the tables fails are excluded because the
  property is false there, see DiskTearing.StaleBytesShow; what one such failure does is in
  DiskTearing.FailedCreateShows and DiskTearing.FailureIsAtomic.
- DiskRuns.RunIsDurable: excludes mounting a volume that was unmounted by a failed write; the drive may
  then hold the tables in its cache only.
- PipeRuns.PipeIsSafe: one pipe; the number of a freed pipe being used again is the allocator's affair.
- Umalloc.Allocator.Malloc: sbrk returns memory above everything obtained before, and the base header
  lies below the heap.
- FAT16 subdirectories and readdir: the root directory only; names are modelled as values.
- The packing of the frame bitmap into 32-bit words, and pmm_deinit_region.
- EagerCopy.KernelStoreRefinesIff: one store. The loops of paging_copy_to_user and paging_zero_user are a
  sequence of such steps in a run; their walk over the pages of a range is not modelled, nor is
  paging_user_range_mapped.
- EagerCopy.CopyOnWriteRefinesEagerCopy: a kernel store is a step of a run only where it is harmless, because
  elsewhere the property is false, see EagerCopy.ForkedStoreShows.
- ProcessTasks.KernelIsSound: a failed thread creation is no step, and process_wait blocks like any other wait.
- process_pipe: the hand-over of a pipe to two new processes.
- Descriptors that refer to no node, which only a failed open could leave.
- DiskFS: diskfs_write_file and diskfs_read_file, the whole-file siblings of the slot operations; the node
  table that mirrors the entries; readdir.
- The dispatch wrappers of fs.c, the RAM file system and procfs.
- calloc and realloc.
- Semaphores, signals, shared memory segments, the ELF loader, the shell and the drivers for screen,
  keyboard and clock.
- TLB flushes and the context switch itself: translations are always fresh, and a switch changes the
  current task.
