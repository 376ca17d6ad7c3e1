# A verified model of the Willo kernel's storage, wake-up and console logic

The project models five parts of the kernel and proves what they promise.

* **FAT32 driver** (`Bytes`, `Layout`, `Chains`, `ShortNames`, `Slots`, `Directory`, `Shape`,
  `FatTree`, `FatSteps`, `Namespace`, `Paths`, `Volume`, `FatState`, `FatOps`, `FatFiles`,
  `FatTheorems`). The disk is a mutable sequence of 512-byte blocks. `Layout.View` gives the blocks a
  meaning: one 28-bit link per cluster, the bytes of every data cluster, the FSInfo counters, and a
  frozen rest. `Volume.FatVolume` has the driver's loops over blocks, each specified by what it does to
  that meaning. `Shape.Inv` says that the links form disjoint terminated chains hung off one directory
  tree. `FatFiles.FatFs` has the file operations, each specified by what *every* path of the volume shows
  before and after.
* **tmpfs** (`TmpFs`) and **both side by side** (`Runs`, `Lockstep`). Any run of calls on FAT and on
  tmpfs succeeds on the same calls and shows the same files.
* **Wake-ups** (`Wakeups`, `Executor`). The keyboard interrupt, the waker, `poll_next` and the idle loop
  as a transition system in which an interrupt may come between any two micro-steps, and as a class,
  `Wakeups.Cpu`, whose methods are the kernel's loops and whose every execution is a run of that system;
  the executor's tables for any number of tasks as a second class.
* **VFS and shell paths** (`Vfs`, `Normalize`, `Shell`).
* **Console** (`Scrollback`, `Pixels`, `Panes`, `Framebuffer`). The ring of past lines against an
  unbounded log, the live screen against the ring, and every pixel write against the bounds of the buffer.

Conventions. A Rust `str` is its sequence of UTF-8 bytes. Integers are unbounded, and the source's
32-bit truncations are written out (`size as u32`, the cluster count, the 28-bit mask, the FSInfo
count); `Layout.NoOverflow` shows that the remaining 32-bit arithmetic cannot overflow. `Sound`, `Stands`,
`Encodes`, `SlotPlaced`, `Twins`, `BothRun`, `Planned`, `Inked`, `InStep`, `StepAt`, `TameAt`, `PixelSet` and
`Displays` are folded forms of the predicate named in their body: a quantifier over the single allowed value
keeps the body out of sight of the verifier until it is asked for. Lemmas whose names end in `Means` say what a
definition comes to on bytes, characters and numbers, without using it.

What the FAT operations assume: 512-byte sectors, at least two reserved sectors, every FAT index below
`sectors_per_fat * 128` has its data cluster on the disk, the FAT copies agree on the low 28 bits, links
are in range, and the name to be stored is an ASCII 8.3 name without space, final dot, `.` or `..`.
Paths need not be normalised: a path made only of slashes other than `/` is not found, as in the code.

Where code and comments differ, the model follows the code. The comment on `write_file` speaks of reusing
the existing chain (kernel/src/fs/fat.rs:270-271); the code drops the old file first and allocates
afterwards, so a write that runs out of space leaves the path absent, and `FatFiles.FatFs.WriteFile` says
so. `create_file` gives a new entry attribute byte 0 and a truncated one 0x20. `viewport_rows` is meant to be
the number of glyph rows that fit (kernel/src/framebuffer.rs:56-57); when the height leaves a remainder of 1
modulo 18, live text uses one row more (`Panes.OddScreenLosesStep`), and `Panes.NewlineSync` says exactly when
screen and ring part.

Main results, by what they rest on:

1. `FatFs.CreateFile`, `WriteFile`, `AppendFile`, `CreateDir`, `Remove` each keep `Valid`, refuse exactly
   the paths that `WriteDenied`, `MakeDenied`, `RemoveDenied` describe (with that error and no change),
   and otherwise change exactly one path of the whole name space. A call that is not refused succeeds if
   and only if there is room (`WriteRoom`, `CreateRoom`, `MakeRoom`: the old file's clusters and its slot
   count), and a failed call says what it leaked and whether the FSInfo count is still right.
   `Runs.RunKeeps` lifts this to whole runs, including failed calls; `FatTheorems.ChainSound`, `ChainsApart`,
   `EntriesSafe`, `ChainsReached`, `NothingLeaked` spell out what a sound volume is, and `ShapeDetermined` that
   the ghost shape adds nothing to the blocks.
2. `Runs.RunsAgree` and `Lockstep.SideBySide`: FAT and tmpfs refine one name space; a run succeeds on the
   same calls in both if and only if FAT had room at every call.
3. `Wakeups.NoLostWakeup`, `DeliveredInOrder`, `Settles` and `Cpu.Run`: over every interleaving, no
   wake-up is lost, scancodes come out in order, and a program that is left alone hands out everything and
   halts.
4. `Framebuffer.Writer`: the ring is the tail of the log, the redrawn screen shows exactly the window of
   lines pixel by pixel, every character keeps screen and ring in step if and only if `Panes.Tame` says so
   (`Panes.StepSync`, for whole texts `Panes.TextSync`), and no write leaves the buffer.

## Model

| member | source | states |
|---|---|---|
| `Layout.ClusterRegion` | kernel/src/fs/fat.rs:218-220 | every cluster's blocks lie in the data area and on the disk |
| `Layout.ClustersDisjoint` | kernel/src/fs/fat.rs:218-220 | two clusters share a block only if they are the same cluster and block |
| `Layout.FatRegion` | kernel/src/fs/fat.rs:222-235 | a FAT entry never straddles a block and lies between the reserved and the data area |
| `Layout.EntriesDisjoint` | kernel/src/fs/fat.rs:436-455 | entries of different clusters have disjoint windows, copies have disjoint blocks |
| `Layout.RegionsInOrder` | kernel/src/fs/fat.rs:81-82 | boot sector, FSInfo, FAT copies and data area come in order without overlap |
| `Layout.NoOverflow` | kernel/src/fs/fat.rs:413-416 | no 32-bit computation of a sector number or offset overflows |
| `Layout.DataWrite` | kernel/src/fs/fat.rs:518-525 | writing one block of a cluster splices that cluster's bytes and changes nothing else on the volume |
| `Layout.FatWrite` | kernel/src/fs/fat.rs:436-455 | patching every copy changes one link, keeps the copies equal and every top nibble |
| `Layout.InfoWrite` | kernel/src/fs/fat.rs:463-483 | rewriting the two counters of the FSInfo sector changes nothing but the counters |
| `Layout.LinkMeans` | kernel/src/fs/fat.rs:222-233 | which four bytes of which block, in every FAT copy, are the link of a cluster, low byte first and 28 bits of it |
| `Layout.DataMeans` | kernel/src/fs/fat.rs:218-220 | which block holds which stretch of a cluster, the clusters counted from 2 behind all FAT copies |
| `Layout.InfoMeans` | kernel/src/fs/fat.rs:463-481 | the FSInfo signatures and counters, byte by byte |
| `Layout.ViewDetermines` | kernel/src/fs/fat.rs:436-481 | nothing on the disk escapes the view: mirrored volumes with the same view hold the same blocks |
| `Chains.ChainDistinct` | kernel/src/fs/fat.rs:196-216 | a terminated chain cannot visit a cluster twice |
| `Chains.AllocationSound` | kernel/src/fs/fat.rs:382-406 | the least free clusters become one strictly increasing terminated chain; all other links stay |
| `Chains.FreedExactly` | kernel/src/fs/fat.rs:485-498 | freeing zeroes exactly the clusters reachable from the start, for every in-range table, cyclic or not |
| `Chains.FreedStart` | kernel/src/fs/fat.rs:485-498 | a start below 2 or from 0x0FFFFFF8 on frees nothing, any other start is freed |
| `Chains.ClearedCount` | kernel/src/fs/fat.rs:485-498 | freeing a chain adds its length to the number of free clusters |
| `Chains.AllocateThenFree` | kernel/src/fs/fat.rs:382-406 | allocating and freeing again gives the old table back |
| `ShortNames.NameRoundTrip` | kernel/src/fs/fat.rs:687-732 | an ASCII name is read back (lower-cased) if and only if it fits 8.3 |
| `ShortNames.EntryRoundTrip` | kernel/src/fs/fat.rs:160-191 | name, cluster, size and directory flag survive the round trip; the slot is never taken for free |
| `ShortNames.SlotMeans` | kernel/src/fs/fat.rs:687-756 | all 32 bytes of an encoded entry: upper-case name fields padded with spaces, attributes, cluster and size with low bytes first, zeros elsewhere |
| `ShortNames.EncodingInjective` | kernel/src/fs/fat.rs:687-732 | two valid names share an encoding exactly when they differ in case only |
| `ShortNames.LongNamesCollide` | kernel/src/fs/fat.rs:700-713 | two different names that do not fit are stored alike |
| `ShortNames.WriteShortEntry` | kernel/src/fs/fat.rs:687-732 | the byte-by-byte writer produces `EncodeSlot` |
| `ShortNames.DecodeShortName` | kernel/src/fs/fat.rs:759-783 | the decoding loops compute the name of the slot |
| `Slots.SlotsOfChain` | kernel/src/fs/fat.rs:160-163 | cutting the whole chain into 32-byte pieces gives the slots cluster by cluster |
| `Slots.ChainByteAt` | kernel/src/fs/fat.rs:196-216 | byte `b` of the `m`-th cluster is byte `m * cb + b` of the chain |
| `Slots.SlotWrite` | kernel/src/fs/fat.rs:551-563 | splicing a slot into one cluster writes exactly that slot of the flat directory |
| `Directory.MatchIsFind` | kernel/src/fs/fat.rs:360-363 | searching the collected entries is searching the slots |
| `Directory.ClassifyMeans` | kernel/src/fs/fat.rs:163-192 | which slots end a directory, are deleted or are reported, said on the bytes: a volume label and a long name never are; and the fields of a reported one |
| `Directory.EntriesInOrder` | kernel/src/fs/fat.rs:160-194 | the entries read are exactly the live slots before the end, in slot order |
| `Directory.FindMeans` | kernel/src/fs/fat.rs:360-363 | with a dead tail, the search finds a live entry of that name wherever there is one |
| `Directory.AddMark` | kernel/src/fs/fat.rs:536-582 | writing over the first dead slot adds exactly one entry, keeps the tail dead and names unique |
| `Directory.DeleteMark` | kernel/src/fs/fat.rs:586-619 | marking a live slot removes exactly its entry |
| `Directory.AppendEnds` | kernel/src/fs/fat.rs:569-576 | growing a full directory by empty slots changes no entry |
| `Shape.DetachTree` | kernel/src/fs/fat.rs:341-345 | dropping an entry and its chain (an empty directory's too) keeps the tree |
| `Shape.GrowTree` | kernel/src/fs/fat.rs:569-576 | growing a directory keeps the tree |
| `Shape.AttachTree` | kernel/src/fs/fat.rs:299-300 | hanging a new chain at the first dead slot keeps the tree |
| `Shape.Reachable` | kernel/src/fs/fat.rs:130-158 | every chain is reached from the root by following live entries |
| `Namespace.EditObserved` | kernel/src/fs/fat.rs:130-158 | replacing one entry of one directory changes what is seen exactly at and below its path, for every path |
| `Namespace.HeadUnique` | kernel/src/fs/fat.rs:130-158 | a directory has one path, up to case |
| `Namespace.AbsentMeans` | kernel/src/fs/fat.rs:130-158 | below a file every path is not a directory; a name that a directory lacks is not found, with everything below it |
| `Paths.SplitParentSegments` | kernel/src/fs/fat.rs:666-682 | parent and name together are the whole path |
| `Paths.SplitCanonical` | kernel/src/fs/fat.rs:666-682 | every normalised path but the root splits, into a normalised parent |
| `Paths.CanonicalMeans` | kernel/src/fs/fat.rs:666-685 | a canonical path starts with a slash, has no two in a row and, but for the root, none at the end |
| `Paths.TrimEndMeans` | kernel/src/fs/mod.rs:359-366 | what trimming takes away is all slashes |
| `Volume.FatVolume.NextCluster` | kernel/src/fs/fat.rs:222-235 | reads the low 28 bits of the entry |
| `Volume.FatVolume.WriteFatEntry` | kernel/src/fs/fat.rs:436-455 | exactly one link changes, in every copy; top nibbles and all other blocks stay |
| `Volume.FatVolume.FindFreeCluster` | kernel/src/fs/fat.rs:409-432 | the least free cluster, or an error exactly when there is none |
| `Volume.FatVolume.UpdateFsInfo` | kernel/src/fs/fat.rs:463-483 | only the counters change, and only when signed and known |
| `Volume.InfoMoves` | kernel/src/fs/fat.rs:463-481 | without the signatures nothing moves; the hint becomes the last cluster taken, if one was; a known count moves by the delta and not below zero |
| `Volume.FatVolume.WriteCluster` | kernel/src/fs/fat.rs:518-525 | the block loop writes exactly one cluster |
| `Volume.FatVolume.AllocateChain` | kernel/src/fs/fat.rs:382-406 | takes the least free clusters, zeroed and linked; without enough space it keeps those it had marked and fails |
| `Volume.AllocMeans` | kernel/src/fs/fat.rs:382-407 | the new clusters form one chain ending in 0x0FFFFFFF, are all zero, and the last of them is the hint of a signed FSInfo |
| `Volume.FatVolume.FreeChain` | kernel/src/fs/fat.rs:485-498 | terminates for every in-range table and computes `Freed` |
| `Volume.FatVolume.ReadChain` | kernel/src/fs/fat.rs:196-216 | a prefix of the chain's bytes, whole unless the limit was reached |
| `Volume.FatVolume.WriteChain` | kernel/src/fs/fat.rs:500-516 | stores the data along the chain and touches nothing else |
| `Volume.StoredReads` | kernel/src/fs/fat.rs:500-516 | what was stored along a long enough chain is read back |
| `Volume.FatVolume.AddDirEntry` | kernel/src/fs/fat.rs:536-582 | the first dead slot of the flat directory is written, after at most one growth; fails only when full and no cluster is free |
| `Volume.FatVolume.DeleteDirEntry` | kernel/src/fs/fat.rs:586-619 | kills exactly the slot that the search of `find_in_dir` finds; without one, which result comes back |
| `Volume.FatVolume.ReadDir` | kernel/src/fs/fat.rs:160-191 | the live entries of the flat directory up to its end |
| `Volume.FatVolume.FindInDir` | kernel/src/fs/fat.rs:360-363 | the first live entry of that name, ignoring case |
| `FatState.CountedAlloc` | kernel/src/fs/fat.rs:404-405 | allocation keeps "FSInfo count = free clusters"; the clamp at 0 does not fire |
| `FatState.CountedFree` | kernel/src/fs/fat.rs:494-496 | freeing keeps the FSInfo count right |
| `FatState.CountedGrow` | kernel/src/fs/fat.rs:571-575 | directory growth keeps the FSInfo count right |
| `FatState.DetachSeen` | kernel/src/fs/fat.rs:341-345 | dropping an entry makes its path disappear and changes nothing else |
| `FatState.PlaceGood` | kernel/src/fs/fat.rs:536-582 | a whole `add_dir_entry` keeps the invariant, leaks nothing, keeps the count |
| `FatState.PlaceSeen` | kernel/src/fs/fat.rs:536-582 | a whole `add_dir_entry` makes one path appear and changes nothing else |
| `FatState.WalkSeen` | kernel/src/fs/fat.rs:130-158 | looking a path up gives what the path shows, errors included |
| `FatOps.ListingSeen` | kernel/src/fs/fat.rs:109-121 | a listing names each visible child once |
| `FatOps.EmptySeen` | kernel/src/fs/fat.rs:334-340 | `read_dir` is empty exactly when no child path shows anything |
| `FatOps.MakeDirOp` | kernel/src/fs/fat.rs:313-321 | a fresh cluster with `.` and `..` is an empty directory |
| `FatOps.FailOp` | kernel/src/fs/fat.rs:389-403 | a failed allocation leaves no cluster free, leaks exactly if one was, and upsets the count exactly if one was and the count was known |
| `FatFiles.RootMeans` | kernel/src/fs/fat.rs:130-158 | the empty string and `/` name the root, a longer run of slashes nothing |
| `FatFiles.FatFs.Lookup` | kernel/src/fs/fat.rs:130-158 | the segment loop computes the lookup of the path |
| `FatFiles.FatFs.IsDir` | kernel/src/fs/fat.rs:123-128 | true exactly for paths that show a directory |
| `FatFiles.FatFs.ReadFile` | kernel/src/fs/fat.rs:96-107 | exactly the bytes the path shows, or why there are none |
| `FatFiles.FatFs.ListDir` | kernel/src/fs/fat.rs:109-121 | every visible child once, in lower case and in slot order; the error cases |
| `FatFiles.FatFs.ClusterFor` | kernel/src/fs/fat.rs:349-358 | the directory a path leads to, or why there is none |
| `FatFiles.FatFs.CreateFile` | kernel/src/fs/fat.rs:240-253 | refusals; otherwise it succeeds exactly when the file exists, the directory has a reusable slot or a cluster is free, and then one path shows an empty file; the attribute byte of its slot; a failure changes nothing |
| `FatFiles.FatFs.TruncateFile` | kernel/src/fs/fat.rs:365-379 | an existing file becomes empty and this cannot fail |
| `FatFiles.FatFs.WriteFile` | kernel/src/fs/fat.rs:272-301 | refusals; otherwise it succeeds exactly when the clusters fit what is free plus what the old file gives back (and one more for growing a full directory); the path shows the data or, on failure, nothing; the slot of the new entry has attribute 0x20; what a failure leaks and when the count stays right |
| `FatFiles.FatFs.AppendFile` | kernel/src/fs/fat.rs:259-268 | as `WriteFile` with the old bytes in front, under the same exact condition; directories and bad parents are refused |
| `FatFiles.FatFs.CreateDir` | kernel/src/fs/fat.rs:304-325 | refusals; otherwise it succeeds exactly with one free cluster, or two in a full directory, and one path shows an empty directory, whose `.` points at itself and whose `..` points at its parent, 0 below the root; a failure changes no name, leaks the last free cluster and keeps the count |
| `FatFiles.FatFs.Remove` | kernel/src/fs/fat.rs:328-346 | refusals, non-empty directories included; otherwise the path disappears and nothing else changed |
| `FatFiles.RefusalsMean` | kernel/src/fs/fat.rs:240-346 | which calls are refused with which error, by what the parent and the path show |
| `FatFiles.ClustersMeans` | kernel/src/fs/fat.rs:289-295 | a file takes exactly as many clusters as hold it: one fewer would not |
| `FatTheorems.ChainSound` | kernel/src/fs/fat.rs:240-346 | every chain of a sound volume is terminated and acyclic |
| `FatTheorems.ChainsApart` | kernel/src/fs/fat.rs:240-346 | chains are pairwise disjoint |
| `FatTheorems.EntriesSafe` | kernel/src/fs/fat.rs:240-346 | no live entry points at a free cluster, no two share a chain |
| `FatTheorems.ChainsReached` | kernel/src/fs/fat.rs:240-346 | every chain hangs below the root |
| `FatTheorems.NothingLeaked` | kernel/src/fs/fat.rs:240-346 | without leaks, a cluster is used if and only if it lies on a chain |
| `FatTheorems.ShapeDetermined` | kernel/src/fs/fat.rs:130-216 | any two sound shapes of a volume have the same chains, directories, owners, leaks and name space: the blocks determine them |
| `FatTheorems.FormattedSound` | kernel/src/fs/fat.rs:19-20 | a freshly formatted volume is sound and leaks nothing |
| `FatTheorems.FormattedEmpty` | kernel/src/fs/fat.rs:19-20 | a freshly formatted volume shows nothing but the root |
| `FatTheorems.FailedAllocationMiscounts` | kernel/src/fs/fat.rs:389-404 | after an allocation that runs out of space the FSInfo count is right if and only if nothing was free |
| `FatTheorems.WriteThenRead` | kernel/src/fs/fat.rs:272-301 | a successful write is read back exactly; every path not at or below it reads as before |
| `FatTheorems.AppendThenRead` | kernel/src/fs/fat.rs:259-268 | a successful append reads back as old bytes followed by new |
| `FatTheorems.ListingAfter` | kernel/src/fs/fat.rs:109-121 | a change to one path changes one listing, and there only that name |
| `Runs.FatRunAll` | kernel/src/fs/fat.rs:240-346 | any sequence of calls is a run of the step relation; after every call, failed ones included, the volume is sound and its frozen part untouched; if all succeed nothing leaks and the count stays right |
| `Runs.RunKeeps` | kernel/src/fs/fat.rs:240-346 | over every run of calls that succeed nothing leaks and the FSInfo count stays right |
| `TmpFs.PlugSeen` | kernel/src/fs/tmp.rs:62-72 | changing one entry through the walked path changes what is seen exactly there and below |
| `TmpFs.AbsentMeans` | kernel/src/fs/tmp.rs:50-60 | below a file every path is not a directory; a name that a directory lacks is not found |
| `TmpFs.RefusalsMean` | kernel/src/fs/tmp.rs:107-192 | which calls are refused with which error, by what the parent and the path show |
| `TmpFs.LessMeans` | kernel/src/fs/tmp.rs:84-91 | the order of a listing: the smaller byte at the first difference, or the shorter string, comes first |
| `TmpFs.TmpFs.Walk` | kernel/src/fs/tmp.rs:50-60 | the loop reaches the node of the path, or the right error |
| `TmpFs.TmpFs.ReadFile` | kernel/src/fs/tmp.rs:75-82 | exactly the bytes the path shows |
| `TmpFs.TmpFs.ListDir` | kernel/src/fs/tmp.rs:84-91 | exactly the visible children, once each, in byte order |
| `TmpFs.TmpFs.IsDir` | kernel/src/fs/tmp.rs:93-97 | true exactly for directories |
| `TmpFs.TmpFs.CreateFile` | kernel/src/fs/tmp.rs:107-123 | refusals; otherwise one path shows an empty file and nothing else changed |
| `TmpFs.TmpFs.WriteFile` | kernel/src/fs/tmp.rs:125-138 | refusals; otherwise one path shows the data and nothing else changed |
| `TmpFs.TmpFs.AppendFile` | kernel/src/fs/tmp.rs:140-159 | refusals; otherwise one path shows old bytes followed by new |
| `TmpFs.TmpFs.CreateDir` | kernel/src/fs/tmp.rs:161-174 | refusals; otherwise one path shows an empty directory |
| `TmpFs.TmpFs.Remove` | kernel/src/fs/tmp.rs:176-192 | refusals; otherwise one path disappears |
| `Runs.TmpRunAll` | kernel/src/fs/tmp.rs:107-192 | any sequence of calls is a run of the step relation |
| `Runs.RefusalsAgree` | kernel/src/fs/tmp.rs:107-192 | FAT and tmpfs refuse the same calls when they show the same |
| `Runs.StepAgrees` | kernel/src/fs/tmp.rs:107-192 | one call on both: the outcomes agree if and only if FAT has the clusters the call needs, and then both show the same |
| `Runs.RunsAgree` | kernel/src/fs/tmp.rs:107-192 | any run on both: the same calls succeed if and only if FAT had room at every call, and then every lower-case path shows the same after each call |
| `Lockstep.StartAlike` | kernel/src/fs/tmp.rs:32-38 | a formatted volume and a new tmpfs show the same |
| `Lockstep.SideBySide` | kernel/src/fs/tmp.rs:107-192 | running the same calls on both: same outcomes if and only if there was room throughout, and then any path reads the same |
| `Wakeups.Cpu.KeyboardInterrupt` | kernel/src/task/keyboard.rs:14-19 | the handler does exactly the arrival step: nothing before the queue exists, dropped while 100 wait, and a registered waker is taken and queues the task once |
| `Wakeups.Cpu.Window` | kernel/src/interrupts.rs:169-175 | between two micro-steps exactly the next batch of interrupts is taken in, in order |
| `Wakeups.Cpu.PollNext` | kernel/src/task/keyboard.rs:43-60 | with interrupts between any two operations: Pending leaves the task queued, or registered with nothing to read; Ready hands out the next scancode |
| `Wakeups.Cpu.RunReadyTasks` | kernel/src/task/executor.rs:39-63 | terminates for every interrupt schedule and is a run of the transition system |
| `Wakeups.Cpu.SleepIfIdle` | kernel/src/task/executor.rs:65-73 | sleeps for good only when no interrupt is left, else goes on |
| `Wakeups.Cpu.Run` | kernel/src/task/executor.rs:32-37 | for every interrupt schedule the loop takes in every interrupt of it in order and ends asleep with both queues empty and every accepted scancode handed out in order |
| `Wakeups.NextKeeps` | kernel/src/task/keyboard.rs:43-60 | every micro-step and every interrupt at any point keeps the wake-up invariant |
| `Wakeups.InterruptsAnywhere` | kernel/src/task/executor.rs:65-73 | an interrupt may come at every point of every run but the two at which interrupts are off |
| `Wakeups.RacedKey` | kernel/src/task/keyboard.rs:43-60 | a run in which a key comes after the queue was found empty and before the waker is registered: nobody is woken, and the second pop still delivers it |
| `Wakeups.KeyBeforeSleep` | kernel/src/task/executor.rs:65-73 | a key between the last look at the run queue and turning interrupts off keeps the CPU from halting |
| `Wakeups.NoLostWakeup` | kernel/src/task/executor.rs:65-73 | in every run a parked, unqueued task is registered with nothing to read; a halted CPU has both queues empty |
| `Wakeups.DeliveredInOrder` | kernel/src/task/keyboard.rs:14-19 | delivered scancodes are the accepted arrivals in order; only 100 waiting (or no queue yet) loses one |
| `Wakeups.ArrivalsAreKeys` | kernel/src/interrupts.rs:169-175 | the recorded arrivals are the run's keyboard interrupts |
| `Wakeups.Settles` | kernel/src/task/executor.rs:32-37 | without further interrupts everything accepted is delivered and the CPU halts |
| `Executor.IdsFresh` | kernel/src/task/mod.rs:14-19 | the next id is new if and only if fewer than 2^64 were drawn |
| `Executor.Executor.SpawnNew` | kernel/src/task/executor.rs:24-30 | a new task never hits the duplicate-id panic |
| `Executor.Executor.Spawn` | kernel/src/task/executor.rs:24-30 | which panic a spawn hits, if any, and the tables afterwards |
| `Executor.Executor.WakeTask` | kernel/src/task/executor.rs:95-97 | a wake-up is queued unless 100 are waiting; afterwards the task is queued if and only if it was or there was room |
| `Executor.StrandedTask` | kernel/src/task/executor.rs:95-97 | a reachable state in which a live task's wake-up left the full queue as it was, and no continuation without another wake-up polls the task |
| `Executor.NeverPolled` | kernel/src/task/executor.rs:46-62 | a task that is neither queued nor woken is never polled, whatever else happens |
| `Executor.Executor.PollTask` | kernel/src/task/executor.rs:51-61 | a finished task leaves both tables; every cached waker belongs to a live task |
| `Executor.Executor.RunReadyTasks` | kernel/src/task/executor.rs:39-63 | tasks are polled in queue order (`Drain`), only live ones, never after Ready, whatever ids are queued and whatever wake-ups come between two pops |
| `Executor.ServedInOrder` | kernel/src/task/executor.rs:39-63 | different live tasks at the front are polled one turn each in their order, whatever wake-ups come meanwhile |
| `Executor.PushedMeans` | kernel/src/task/executor.rs:95-97 | wake-ups queue in order until 100 wait, the rest is dropped |
| `Executor.PollLive` | kernel/src/task/executor.rs:46-62 | polling a task that has not finished keeps "never after Ready" |
| `Normalize.NormalizePath` | kernel/src/fs/mod.rs:329-354 | the stack and join loops compute the normal form |
| `Normalize.NormalClean` | kernel/src/fs/mod.rs:329-354 | the normal form has no empty, `.` or `..` segment |
| `Normalize.NormalIdempotent` | kernel/src/fs/mod.rs:329-354 | normalising twice changes nothing more, whatever the directory |
| `Normalize.NormalComposes` | kernel/src/fs/mod.rs:329-354 | going to `a` and then to relative `b` is going to `a/b` |
| `Normalize.DotDotCancels` | kernel/src/fs/mod.rs:329-354 | a name and `..` behind it cancel |
| `Normalize.DotStays` | kernel/src/fs/mod.rs:329-354 | `.` changes nothing |
| `Normalize.NameDescends` | kernel/src/fs/mod.rs:329-354 | any other name goes one level down |
| `Normalize.DotDotIsParent` | kernel/src/fs/mod.rs:340-343 | `..` is the parent of the working directory, and the root is its own |
| `Normalize.RelativeTakesCwd` | kernel/src/fs/mod.rs:329-334 | a path without a leading slash is one below the working directory |
| `Vfs.Vfs.Mount` | kernel/src/fs/mod.rs:116-132 | errors; at most 8 distinct stored prefixes |
| `Vfs.Vfs.Unmount` | kernel/src/fs/mod.rs:134-143 | removes exactly that prefix |
| `Vfs.Vfs.MountUnmount` | kernel/src/fs/mod.rs:116-143 | mounting and unmounting gives the old table back |
| `Vfs.Vfs.Resolve` | kernel/src/fs/mod.rs:162-194 | the one mount with the longest prefix that covers the path, or none covers it |
| `Vfs.Vfs.MountThenResolve` | kernel/src/fs/mod.rs:116-194 | a mounted file system answers for its mount point as `/` |
| `Vfs.Vfs.MountThenResolveBelow` | kernel/src/fs/mod.rs:116-194 | a mounted file system answers for every path below its mount point that no longer prefix covers, and is asked for what follows the prefix |
| `Vfs.CoversMeans` | kernel/src/fs/mod.rs:172-176 | a prefix covers itself and whatever continues it with a slash; the root covers everything |
| `Vfs.RelativeBelow` | kernel/src/fs/mod.rs:182-193 | the path below a mount is what follows the prefix, and `/` at the mount point itself |
| `Vfs.BestInAnyOrder` | kernel/src/fs/mod.rs:162-194 | the order of the table does not matter |
| `Vfs.MountFrame` | kernel/src/fs/mod.rs:162-194 | one more mount changes the resolution of covered paths only |
| `Vfs.RelativeCompletes` | kernel/src/fs/mod.rs:182-193 | the relative path starts with a slash and completes the prefix |
| `Vfs.RelativeClean` | kernel/src/fs/mod.rs:182-193 | a clean path is handed to its mount as a clean path |
| `Vfs.Vfs.IsDir` | kernel/src/fs/mod.rs:217-230 | a mount point, or a directory of the covering mount |
| `Vfs.Vfs.ListDir` | kernel/src/fs/mod.rs:201-215 | the mount's own entries, then each child mount point once, in the order of the table; the error cases |
| `Vfs.Vfs.AddedChildIsDir` | kernel/src/fs/mod.rs:201-230 | every child mount that a listing adds is a directory |
| `Vfs.DirectChild` | kernel/src/fs/mod.rs:368-383 | the last segment exactly when the mount sits directly below |
| `Shell.Shell.CmdCd` | kernel/src/shell.rs:127-137 | the working directory becomes the normal form if that is a directory, else stays |
| `Shell.Shell.ExecuteLine` | kernel/src/shell.rs:64-97 | which operand path a line hands to the VFS; `ls` tests every name the VFS lists there and marks exactly the directories; only `cd` moves |
| `Shell.OperandMeans` | kernel/src/shell.rs:64-97 | the operand is the second word of the line, seen from the working directory; a bare `ls` takes the working directory, a bare `cd` the root |
| `Shell.ChildClean` | kernel/src/shell.rs:109-116 | the path `ls` builds for a child is clean if and only if the name is, a nameless child only below the root |
| `Shell.Shell.Session` | kernel/src/shell.rs:64-97 | over any lines the working directory, every operand path and every operand path a mount sees are clean; when the child paths that `ls` tests are clean |
| `Scrollback.LogConserves` | kernel/src/framebuffer.rs:145-168 | the log holds every printable character written, in order |
| `Scrollback.PrintableMeans` | kernel/src/framebuffer.rs:145-168 | of the characters written exactly line feeds and carriage returns are not kept |
| `Scrollback.LogShort` | kernel/src/framebuffer.rs:153-158 | no line exceeds the cap by more than one character |
| `Scrollback.LinesAtCuts` | kernel/src/framebuffer.rs:145-168 | line by line: each holds exactly what was printed since the line before, and was ended by a newline or because it was full |
| `Scrollback.CutsAreBreaks` | kernel/src/framebuffer.rs:145-168 | a line ends at a character if and only if it is a newline or a printable one that finds the line full |
| `Scrollback.LastLinesMeans` | kernel/src/framebuffer.rs:123-130 | the ring holds the newest 256 lines in order |
| `Pixels.PixelInside` | kernel/src/framebuffer.rs:179-194 | every pixel of the screen lies inside the buffer |
| `Pixels.GlyphMeans` | kernel/src/framebuffer.rs:170-177 | what drawing a glyph writes, byte by byte, and that no other byte changes |
| `Pixels.DisplaysMeans` | kernel/src/framebuffer.rs:198-240 | every byte of a screen that displays some lines: which line, character and raster row it shows |
| `Panes.OverflowIs` | kernel/src/framebuffer.rs:135-143 | the bottom row of a full viewport overflows if and only if the height is not 1 modulo 18 |
| `Panes.NewlineSync` | kernel/src/framebuffer.rs:108-117 | a newline keeps the live screen in step with the ring if and only if `NewlineKeeps` |
| `Panes.CharSync` | kernel/src/framebuffer.rs:159-165 | a character that fits its line keeps the live screen in step |
| `Panes.OverhangSync` | kernel/src/framebuffer.rs:159-165 | a character that does not fit its line keeps the screen in step if and only if `OverhangKeeps`: a one-column screen, redrawn, and a glyph that looks like the one it covers |
| `Panes.FullSync` | kernel/src/framebuffer.rs:153-158 | a character after a full line keeps the screen in step if and only if the newline does |
| `Panes.ReturnSync` | kernel/src/framebuffer.rs:119-121 | a carriage return keeps the screen in step if and only if the line is empty |
| `Panes.StepSync` | kernel/src/framebuffer.rs:145-168 | every character, on every screen, keeps the live screen in step with the log if and only if it is tame |
| `Panes.TextSync` | kernel/src/framebuffer.rs:278-283 | a text keeps the screen in step at every character if and only if every character is tame |
| `Panes.StepMeans` | kernel/src/framebuffer.rs:145-168 | where a character is drawn, when it goes to the row below, and that only its cell changes unless the screen is redrawn |
| `Panes.NextRowMeans` | kernel/src/framebuffer.rs:135-143 | the row below is 18 pixels down, or the bottom row of a redrawn screen |
| `Panes.WindowMeans` | kernel/src/framebuffer.rs:198-207 | which lines a viewport shows at a scroll position |
| `Panes.CursorMeans` | kernel/src/framebuffer.rs:198-240 | where the cursor stands behind a window of lines |
| `Panes.OddScreenLosesStep` | kernel/src/framebuffer.rs:135-143 | on a screen of 37 pixel rows a newline puts the cursor in a row that no redraw would use |
| `Framebuffer.Writer.WritePixel` | kernel/src/framebuffer.rs:179-194 | writes the bytes from `(y * stride + x) * bpp` on, red first or blue first or one gray value, and no other byte |
| `Framebuffer.Writer.DrawGlyph` | kernel/src/framebuffer.rs:170-177 | every pixel of the cell shows the raster, every other pixel stays |
| `Framebuffer.Writer.RedrawVisible` | kernel/src/framebuffer.rs:198-240 | every pixel of the screen shows exactly the window of lines; the cursor stands behind what fits of the last one |
| `Framebuffer.Writer.AdvanceVisualRow` | kernel/src/framebuffer.rs:135-143 | one row down with the screen untouched, or the newest window redrawn and the cursor in the bottom row; always on the screen |
| `Framebuffer.Writer.PushCurrentToRing` | kernel/src/framebuffer.rs:123-130 | the ring is again the last 256 lines of the log |
| `Framebuffer.Writer.WriteChar` | kernel/src/framebuffer.rs:145-168 | ring and current line follow the log; the screen and cursor after every kind of character; a screen in step stays so if and only if the character is tame; scrolled back, the screen is frozen |
| `Framebuffer.Writer.Newline` | kernel/src/framebuffer.rs:108-117 | one row down or a redraw; the screen stays in step if and only if `NewlineKeeps` |
| `Framebuffer.Writer.WritePrintable` | kernel/src/framebuffer.rs:149-167 | at the live tail exactly the glyph's cell changes, at the wrapped cursor, after a redraw of the newest window if the row overflowed; in step if and only if tame |
| `Framebuffer.Writer.WriteStr` | kernel/src/framebuffer.rs:278-283 | the log takes the whole string; the panes follow character by character, and from a screen in step all are if and only if every character is tame; scrolled back, the screen is frozen |
| `Framebuffer.Writer.Clear` | kernel/src/framebuffer.rs:85-89 | a blank screen and the cursor home; ring, text and scroll position stay |
| `Framebuffer.Writer.ScrollUp` | kernel/src/framebuffer.rs:243-252 | the clamped position, the window it shows and the cursor behind it |
| `Framebuffer.Writer.ScrollDown` | kernel/src/framebuffer.rs:255-262 | the new position, the window it shows and the cursor behind it |
| `Framebuffer.Writer.ScrollEnd` | kernel/src/framebuffer.rs:265-271 | the live tail, with the screen in step with the ring |

## Left out

- FatFiles.FatFs.WriteFile: assumes that the last name of the path fits 8.3, as do CreateFile, AppendFile and CreateDir; `ShortNames.NameRoundTrip` says exactly which names the code stores faithfully, and `LongNamesCollide` shows what happens to others.
- FatFiles.FatFs.AppendFile: reads back as promised while old and new bytes together stay below 2^32; beyond that the 32-bit size field cuts the file, which `Stored32` states, as long as the cluster count fits 32 bits.
- TmpFs.PlugSeen: the mutable cursor of `walk_mut` is a rebuilt tree, so aliasing inside the tree is not captured.
- Executor.Executor.RunReadyTasks: futures are foreign, so the outcome of each poll and the wake-ups between two pops are given. With several tasks no delivery of wake-ups is promised, since the code drops them at a full queue (`StrandedTask`).
- Vfs.Vfs.ListDir: mounted file systems are represented by what they answer for listings and directory tests at that moment; the delegating read and write calls add nothing to `resolve`.
- Shell.Shell.ExecuteLine: the text a command prints (and so the order in which `ls` sorts its names), and the effect of its VFS call on the mounted file systems, are not modelled.
- Framebuffer.Writer.WritePixel: an unsupported pixel format panics in the source and is no value of `Format`.
- `FatFs::mount` reading the boot sector (kernel/src/fs/fat.rs:66-94): a handful of field reads; the geometry it yields is a parameter.
- Block-device errors and power loss in the middle of a call: the block device is a sequence of blocks that always answers.
- Wake-ups with several tasks: the transition system has the one task the kernel spawns (kernel/src/main.rs:46-48).
- The work the shell does between two scancodes: it takes no micro-step of the model, since the shell awaits nothing but the scancode stream.
- kernel/src/ata.rs, kernel/src/block.rs, kernel/src/fs/dev.rs, kernel/src/fs/ram.rs, kernel/src/allocator.rs, kernel/src/memory.rs, kernel/src/gdt.rs, kernel/src/interrupts.rs (but for the keyboard handler's effect), kernel/src/serial.rs, kernel/src/task/simple_executor.rs: hardware set-up, thin wrappers or easy code.
- Glyph rasters, scancode decoding, the queue and waker crates: foreign, taken at their documented behaviour.
