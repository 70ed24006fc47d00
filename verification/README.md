# A verified model of the AronaOS kernel's storage, scheduler and frame allocator

This project models three parts of the AronaOS kernel and proves properties of them with Dafny 4.11.
`dafny verify dfyconfig.toml` checks everything.

**The FAT32 file system** (`Words`, `Geometry`, `Ata`, `Volume`, `Fat`, `Chain`, `Names`, `Directory`,
`Files`, `FileSystem`, `Interrupted`, `BootSector`, `Format`, `FormatStopped`, `Runs`). `Ata.Disk` is a drive of 1,048,576 sectors behind
LBA28 registers; it may refuse any transfer, and then nothing is transferred. A ghost counter of these faults
ties the disk errors to refusals of the drive (`Ata.Accounted`): under the volume invariant, `write_file`,
`read_file` and all they call answer the disk error exactly when the counter went up, and so never address a
sector the drive lacks; `format` does so on any disk. Above the drive the code of `ata.rs`, `format.rs` and
`dir.rs` is written as methods with the same loops, buffers and order of disk writes; the `?` operator
is Dafny's `:-`. Byte buffers are arrays that are patched in place. The drive keeps a ghost history, so
that contracts can speak of the disk after *every* sector write, not only at the end of a call.

`Volume.VolOf` decodes the raw sectors into the four areas of a FAT32 volume. For every operation that
writes, a *plan* (`Fat.EntryPlan`, `Fat.AllocPlan`, `Chain.DataPlan`, `FileSystem.FilePlan`) lists the
volumes its sector writes lead through, and the method is proved to run a prefix of its plan
(`Traces.Ran`): the whole plan unless the drive reports an error. An I/O error and a power failure
between two sector writes are thereby the same thing, a plan cut short, and what they leave behind is
proved about the plans, for every prefix.

The main results: a crash or error at any point of `write_file` leaves every stored file as it was, and
only the last sector write makes the new file appear, complete (`FileSystem.WriteIsAtomic`,
`FileSystem.Atomic` in the contract of `WriteFile`); over whole runs of successful, failed and
interrupted calls from `format` on, the volume lists exactly the files of the successful calls in order,
and `read_file` answers with the first of a name (`Runs.RunsFromFormat`, `FileSystem.ReadFile`). On a drive
that refuses nothing, `write_file` gives the planned answer, `read_file` the lookup and `format` Ok; the planned
answer is told by the length of the data, the free clusters and the number of files
(`FileSystem.AnswerExactlyWhen`).

For `format` the plan is the sector and the contents of each of its 2062 writes (`Format.FormatStep`). Stopped
within the first four it has lost no file, stopped while the FATs are cleared it leaves no file system until it
is run again, and the root directory changes only when both FATs are complete (`FormatStopped`).

Two findings about the code:

* A file name whose base starts with a character whose code point ends in the byte 0x00 or 0xE5 (such as
  U+00E5, "å") yields a directory entry that reads as unused or deleted. `write_file` answers Ok and the
  file cannot be found again. The model therefore takes names as arbitrary Unicode strings and proves
  that a file written with Ok is found again *if and only if* its name is not of that kind
  (`FileSystem.WrittenFileIsFound`, `FileSystem.NameOccupies`, `FileSystem.LostFile`). The
  clusters of such a file stay taken, and the next entry takes the same slot. (A comment at `dir.rs:36` says that non-ASCII names
  are not expected; nothing rejects them, and of the ASCII characters only NUL is affected.)
* After an error or crash, a cluster that no file owns may be in use, link to a cluster that is still
  free, and differ between the two FAT copies (`Fat.LeakedChainMayDangle`). Exactly when is proved: stopped
  after `i` sector writes, a call has left such a link if and only if `i` falls between a link and the end
  mark after it (`Interrupted.DanglesExactlyWhen`), and unequal copies, where they were equal, if and only
  if `i` is odd and the allocation was not over (`Interrupted.CopiesEqualExactlyWhen`). A caller can tell
  before the call: some interruption leaves such a link if and only if the data needs two clusters or more
  and two or more are free (`Interrupted.InterruptionsCanHarm`). Later calls do not mend a difference
  outside the clusters they take (`Interrupted.CompleteCallMirrorsExactlyWhen`). The invariant is therefore
  about the chains of directory entries; on those, both copies always agree (`Files.ChainOfFile`).

**The scheduler and context switch** (`Context`, `Scheduler`). `Context.Cpu` has the callee-saved
registers, `rsp` and word memory; `SwitchTo` is the push/store/load/pop sequence. `Scheduler.System` is
the whole machine with one stack region per task; its steps are "the running task computes on its own
stack", "the timer calls schedule" and "a task is spawned". The results speak of whole runs: a resumed
task gets back exactly what it had when it was switched out, and the order is fair.

**The physical frame allocator** (`Frames`). `allocate_frame`, which recomputes the frame stream and
takes its n-th element, hands out each usable frame once; the kernel heap's pages and the page tables
made on the way never share a frame.

Integers are mathematical integers with the ranges of the source's types; `u32` arithmetic in
`cluster_to_sector` is checked, and an overflow, which stops a kernel built with overflow checks, is the
error `ArithmeticPanic`. Shifts and masks are written as divisions and remainders by powers of two.
The method pairs `LoadSector`/`StoreSector`, `ReadClusterSectors`, `AddEntry`, `ReadSlot` and the sector
scans of `Directory`, the `Put` methods and buffers of `BootSector`, `Format.FormatWrite` and
`Frames.MapNextPage` are pieces of longer source functions, cut out to keep proofs small. `ghost` parameters `k` and `n` name the first free cluster and the number of live directory
slots; the volume determines both (`Files.InvUnique`). A call answered "directory full" keeps the
clusters it took, as the code does; the space accounting counts them (`Runs.CompleteRunAccounts`). `hide`
statements only narrow what a proof may use.

## Model

| member | source | states |
|---|---|---|
| Words.SectorRoundTrip | arona_kernel/src/fat32/format.rs:27-46 | Byte and word form of a sector determine each other, in both directions |
| Words.WordsAreLittleEndian | arona_kernel/src/fat32/format.rs:30-36 | Each word is read low byte first |
| Words.FieldsAreLittleEndian | arona_kernel/src/fat32/format.rs:61-77 | 16-bit and 32-bit fields are stored lowest byte first |
| Words.BytesToWords | arona_kernel/src/fat32/format.rs:30-36 | The word array is the little-endian word form of the byte array |
| Words.WordsToBytes | arona_kernel/src/fat32/format.rs:39-46 | The byte array is the byte form of the word array |
| Geometry.ClusterToSector | arona_kernel/src/fat32/format.rs:23-25 | The first sector of that cluster, its number given back by the inverse; fails exactly when the u32 arithmetic overflows, for no cluster of the disk; adding a sector index to the result cannot overflow |
| Geometry.ClustersTileTheDataArea | arona_kernel/src/fat32/format.rs:10-25 | Every data sector is sector t of exactly one cluster, and every cluster lies inside the data area |
| Geometry.FatCoversAllClusters | arona_kernel/src/fat32/format.rs:10-19 | Each FAT copy has an entry for every cluster, the copies end where the data begins, and no data sector is left over |
| Ata.Select | arona_kernel/src/ata.rs:48-61 | The four address registers give back the sector number modulo 2^28, with one sector requested in LBA mode |
| Ata.ClusterSectorsAreAddressable | arona_kernel/src/ata.rs:48-61 | Every sector of every cluster exists and reaches the drive under its own number |
| Ata.Disk.SelectSector | arona_kernel/src/ata.rs:48-61 | The register writes leave exactly that register file |
| Ata.Disk.WaitDrq | arona_kernel/src/ata.rs:35-46 | The drive may refuse at will, which is a fault and counted, and refuses sectors it does not have |
| Ata.Disk.ReadSector | arona_kernel/src/ata.rs:63-77 | Ok delivers the addressed sector; an error leaves the buffer as it was and, for a sector the drive has, is answered exactly on a fault; the contents of the drive never change |
| Ata.Disk.WriteSector | arona_kernel/src/ata.rs:79-100 | Ok replaces the addressed sector and nothing else and is recorded in the history; an error changes nothing and, for a sector the drive has, is answered exactly on a fault |
| Volume.FatSectorWrite | arona_kernel/src/fat32/dir.rs:79-99 | Patching four bytes of a FAT sector changes one entry of one copy: entries do not straddle sectors and the areas are disjoint |
| Volume.DataSectorWrite | arona_kernel/src/fat32/dir.rs:144-153 | Writing a data sector changes no FAT entry, no reserved sector and no other data sector |
| Volume.LoadSector | arona_kernel/src/fat32/dir.rs:202-204 | Ok yields the bytes of the sector; for a sector the drive has, an error exactly on a fault |
| Volume.StoreSector | arona_kernel/src/fat32/dir.rs:98-99 | Ok adds exactly one state, with the sector's bytes replaced; an error adds none and, for a sector the drive has, is answered exactly on a fault |
| Fat.EntryIsolation | arona_kernel/src/fat32/dir.rs:87-96 | A written entry reads back modulo 2^28, the reserved top bits survive, all other entries of both copies and everything outside the FAT are unchanged |
| Fat.ReadFatEntry | arona_kernel/src/fat32/dir.rs:54-70 | Ok gives the 28-bit entry, for any number at all what is stored at its computed place; where the drive has that place, an error exactly on a fault |
| Fat.WriteFatEntry | arona_kernel/src/fat32/dir.rs:74-102 | Copy 1 then copy 2 get the entry; an error, answered exactly on a fault, cuts this short after no or one write; a number past the FAT is patched at its two computed places or refused |
| Fat.MergeEntry | arona_kernel/src/fat32/dir.rs:87-96 | In the buffer only the low 28 bits of the entry change |
| Fat.FindFreeCluster | arona_kernel/src/fat32/dir.rs:105-113 | The lowest free cluster of copy 1, or "disk full" when there is none; a disk error exactly on a fault |
| Fat.LowestFreeIsCounter | arona_kernel/src/fat32/dir.rs:105-113 | Where the used clusters are a prefix the scan acts as a counter at its end |
| Fat.BumpFreeCount | arona_kernel/src/fat32/dir.rs:105-113 | The number of free clusters is the distance of the counter from the end of the disk |
| Fat.AllocPlanAllocates | arona_kernel/src/fat32/dir.rs:117-131 | After every prefix of an allocation only the entries of the clusters it takes have changed and the used clusters of copy 1 are a prefix again; after all of it exactly m more are in use |
| Fat.AllocLinks | arona_kernel/src/fat32/dir.rs:117-131 | A complete allocation links its clusters in order and marks the end at the last, in both copies |
| Fat.AllocMirrors | arona_kernel/src/fat32/dir.rs:117-131 | A complete allocation leaves the two copies equal if they were |
| Fat.LeakedChainMayDangle | arona_kernel/src/fat32/dir.rs:124-129 | One instance: three writes into an allocation of two clusters, a used cluster links to a free one and the copies disagree |
| Fat.AllocateClusterChain | arona_kernel/src/fat32/dir.rs:117-131 | Runs a prefix of the allocation plan; Ok and "disk full" mean that all of it ran, and "disk full" that fewer clusters than needed were free and all are taken now; a disk error exactly on a fault |
| Chain.FillSector | arona_kernel/src/fat32/dir.rs:144-151 | The sector buffer holds its 512 bytes of the chunk, zero-padded |
| Chain.DataPlanOnly | arona_kernel/src/fat32/dir.rs:135-161 | However far the writing got, no sector outside the chain's clusters and no FAT entry has changed |
| Chain.WrittenPlace | arona_kernel/src/fat32/dir.rs:135-161 | Where on the drive the bytes are: byte p in byte p % 512 of sector p % 4096 / 512 of the cluster p / 4096 of the chain, with zeros up to the end of the last cluster |
| Chain.WrittenByte | arona_kernel/src/fat32/dir.rs:133-161 | Every byte of the clusters reached is the data's, and zero past its end |
| Chain.WriteThenRead | arona_kernel/src/fat32/dir.rs:135-186 | For every byte string and every chain of different clusters long enough for it, reading the chain after writing it returns the string |
| Chain.WriteDataToChain | arona_kernel/src/fat32/dir.rs:135-161 | Runs a prefix of the sector writes of the data, all of them on Ok; the only error is the drive's, exactly on a fault |
| Chain.ReadClusterSectors | arona_kernel/src/fat32/dir.rs:169-180 | Extends what was read of a chain by the next cluster's bytes, up to the file size; for a cluster of the disk, an error exactly on a fault |
| Chain.ReadDataFromChain | arona_kernel/src/fat32/dir.rs:164-186 | For every FAT, cyclic ones included, ends with exactly the size asked for or an error; where the links stay on the disk the bytes are the chain's, and the disk error is answered exactly on a fault |
| Names.ToShortName | arona_kernel/src/fat32/dir.rs:37-50 | The 11 bytes are the cut, padded, upper-cased base and extension |
| Names.RSplitOnce | arona_kernel/src/fat32/dir.rs:39-42 | Base and extension around the last dot; the whole name is the base when there is none |
| Names.ShortNameRoundTrip | arona_kernel/src/fat32/dir.rs:33-50 | Base and extension of an upper-case 8.3 name, with or without a dot, are recovered from the short form |
| Names.PlainNamesCoincide | arona_kernel/src/fat32/dir.rs:33-50 | Two upper-case 8.3 names share a short form if and only if they are the same, or the same but for a dot at the end |
| Names.NamesCoincide | arona_kernel/src/fat32/dir.rs:33-50 | Two 8.3 names of visible ASCII characters share a short form if and only if they are the same but for the case of letters and a dot at the end |
| Names.ShortNameByte | arona_kernel/src/fat32/dir.rs:36-50 | Each byte of the short form is decided by one character, upper-cased and cut to eight bits, or is a space |
| Names.NoLowerCase | arona_kernel/src/fat32/dir.rs:43-48 | The short form of an ASCII name has no lower-case letter |
| Names.LongNamesAreCut | arona_kernel/src/fat32/dir.rs:43-48 | Only the first eight characters of the base and the first three of the extension matter |
| Names.CaseIsIgnored | arona_kernel/src/fat32/dir.rs:43-48 | Names whose characters are equal, or the two cases of an ASCII letter, 32 apart, have one short form |
| Directory.SlotRoundTrip | arona_kernel/src/fat32/dir.rs:211-218 | Name, split cluster number and size read back as written, byte by byte; the slot's other bytes and all other slots of the sector are unchanged |
| Directory.SlotsTileTheRoot | arona_kernel/src/fat32/dir.rs:199-207 | Every byte of the root cluster lies in exactly one of its 128 slots |
| Directory.RoomLeft | arona_kernel/src/fat32/dir.rs:206-210 | No thirty-second byte of the root cluster says "unused" or "deleted" exactly when all 128 slots are live |
| Directory.SetSlotOnly | arona_kernel/src/fat32/dir.rs:211-221 | The directory write changes one slot of the root directory, no FAT entry and no other cluster |
| Directory.FindUnusedSlot | arona_kernel/src/fat32/dir.rs:206-210 | The first slot of the sector that is not live |
| Directory.FindNamedSlot | arona_kernel/src/fat32/dir.rs:240-249 | A live slot of that name with no unused slot before it; any live slot of that name it passed by comes after an unused one |
| Directory.PatchSlot | arona_kernel/src/fat32/dir.rs:211-218 | The five patches in the sector buffer |
| Directory.AddEntry | arona_kernel/src/fat32/dir.rs:199-226 | Ok adds one state, with the first slot that is not live filled; "directory full" exactly when no thirty-second byte of the root cluster is 0x00 or 0xE5, which is with 128 live slots; a disk error exactly on a fault |
| Files.ChainOfFile | arona_kernel/src/fat32/dir.rs:105-131 | Each live slot heads a chain of exactly the clusters its size needs, consecutive, different, in range, not the root cluster, in use, alike in both copies, with the end mark at the last |
| Files.ChainsDisjoint | arona_kernel/src/fat32/dir.rs:105-131 | Chains of different files share no cluster |
| Files.FilesUntouched | arona_kernel/src/fat32/dir.rs:117-161 | Writes at or above the first free cluster keep the invariant and every file's name and contents |
| Files.EntryAdded | arona_kernel/src/fat32/dir.rs:199-226 | Filling the first free slot with a complete chain keeps the invariant and appends exactly that file, or nothing when the name does not occupy the slot |
| Files.SectorScanned | arona_kernel/src/fat32/dir.rs:240-245 | The reader's break at an unused slot hides no live file |
| Files.InvUnique | arona_kernel/src/fat32/dir.rs:105-113 | The volume determines the first free cluster and the number of live slots |
| FileSystem.WriteIsAtomic | arona_kernel/src/fat32/dir.rs:193-227 | After any number of the sector writes of a call the invariant holds and all old files are there unchanged; only the last write makes the new file appear, with all its data |
| FileSystem.BodyDone | arona_kernel/src/fat32/dir.rs:196-197 | Just before the directory write the chain is complete in both copies and holds the data |
| FileSystem.SpaceAccounting | arona_kernel/src/fat32/dir.rs:105-131 | Without drive errors a call takes exactly max(1, ceil(len/4096)) clusters; "disk full" is the answer exactly when fewer are free, and then none remain |
| FileSystem.AnswerExactlyWhen | arona_kernel/src/fat32/dir.rs:193-227 | Without a fault: "disk full" exactly when the free clusters do not hold the data or there is none, else "directory full" exactly with 128 files listed, else Ok |
| FileSystem.SizeFits | arona_kernel/src/fat32/dir.rs:217-218 | Data that fits the disk has a length that the 32-bit size field holds |
| FileSystem.MirrorsStayEqual | arona_kernel/src/fat32/dir.rs:72-102 | A complete call on equal FAT copies leaves them equal |
| FileSystem.WriteFile | arona_kernel/src/fat32/dir.rs:193-227 | Without a fault, the planned answer after the whole plan; with one, the disk error after a prefix of it. Ok appends one file to the listing (none for a name that does not occupy a slot), an error none, and no state on the way shows anything but the old files |
| FileSystem.ReadSlot | arona_kernel/src/fat32/dir.rs:250-262 | Follows the chain and size stored in the slot; where the links stay on the disk, an error exactly on a fault |
| FileSystem.ReadFile | arona_kernel/src/fat32/dir.rs:230-267 | Without a fault, the contents of the first listed file of that short name, or "not found"; with one, the disk error; on any volume it ends |
| FileSystem.WrittenFileIsFound | arona_kernel/src/fat32/dir.rs:193-267 | A file written with Ok is found if and only if its name occupies a slot, and its data is what is found exactly when no older file of that name answers first |
| FileSystem.NameOccupies | arona_kernel/src/fat32/dir.rs:43-45 | The names concerned, by the first character of the base |
| FileSystem.LostFile | arona_kernel/src/fat32/dir.rs:36-50 | A concrete name whose file is lost after Ok |
| Interrupted.PlanByWrites | arona_kernel/src/fat32/dir.rs:117-131 | The allocation plan is the sequence of single sector writes: end mark in copy 1 and 2, link in copy 1 and 2, and so on, 4m - 2 of them for m clusters |
| Interrupted.WritesOfCall | arona_kernel/src/fat32/dir.rs:117-227 | An uninterrupted call writes two sectors for each end mark and each link, eight for each cluster the data reaches (none for an empty file), and one for the directory unless it is full |
| Interrupted.AllocLinking | arona_kernel/src/fat32/dir.rs:117-131 | After each single write of an allocation, how far the clusters are in use and what each links to |
| Interrupted.CopiesEqualExactlyWhen | arona_kernel/src/fat32/dir.rs:72-131 | From equal copies, a call stopped after i writes has left equal copies if and only if i is even or the allocation was over |
| Interrupted.DanglesExactlyWhen | arona_kernel/src/fat32/dir.rs:124-129 | A call stopped after i writes has left a cluster linked to a free one if and only if i falls between a link and the end mark after it |
| Interrupted.InterruptionsCanHarm | arona_kernel/src/fat32/dir.rs:117-131 | Some interruption leaves a link to a free cluster if and only if the data needs two clusters or more and two or more are free, and makes equal copies differ if and only if a cluster is free |
| Interrupted.CompleteCallMirrorsExactlyWhen | arona_kernel/src/fat32/dir.rs:72-131 | A complete call ends with equal copies if and only if those it found agree but for the low 28 bits of the clusters it takes |
| Runs.OutcomeIsStep | arona_kernel/src/fat32/dir.rs:193-227 | Every finished, failed or interrupted call is a step of the run model |
| Runs.RunRefines | arona_kernel/src/fat32/dir.rs:193-267 | After any run of calls, finished, failed or interrupted, the invariant holds and the listing is that of the successful calls, in order |
| Runs.FirstWriterWins | arona_kernel/src/fat32/dir.rs:229-267 | Looking a name up after a run gives the first successful call's data, or nothing if there was none |
| Runs.RunsFromFormat | arona_kernel/src/fat32/dir.rs:193-267 | Over every run of finished, failed and interrupted calls on a formatted volume, the listing is that of the successful calls in order, and a name is answered with the data of the first of them that bears it, or not at all |
| Runs.CompleteRunAccounts | arona_kernel/src/fat32/dir.rs:105-131 | Over every run of uninterrupted calls equal copies stay equal and the free clusters go down by what each call's data needs, or to none, whatever the calls answered |
| Runs.CompleteRunFromFormat | arona_kernel/src/fat32/dir.rs:105-131 | The same from a formatted volume, which has all clusters but the root directory's free |
| Runs.FullForEver | arona_kernel/src/fat32/dir.rs:105-113 | Once no cluster is free, no later call of any run is answered Ok and the volume never changes |
| Runs.DiskFullIsFinal | arona_kernel/src/fat32/dir.rs:105-131 | After an uninterrupted call answered "disk full", no later call of the run is answered Ok and the volume stays as it is |
| BootSector.LayoutFromBootSector | arona_kernel/src/fat32/format.rs:48-69 | By the FAT specification, 16-bit fields and root entry count included, the boot sector means FAT32 with FATs of 1024 sectors from sector 32, data from 2080, 130,812 clusters of 4096 bytes and root cluster 2: the constants |
| BootSector.BootBuffer | arona_kernel/src/fat32/format.rs:48-83 | All 512 bytes of the boot sector |
| BootSector.FsInfoBuffer | arona_kernel/src/fat32/format.rs:91-100 | All 512 bytes of the FSInfo sector |
| Format.WriteBootSector | arona_kernel/src/fat32/format.rs:48-89 | Sectors 0 and 6, in this order, get the boot sector with the volume id; no other sector changes; a disk error exactly on a fault |
| Format.WriteFsInfoSector | arona_kernel/src/fat32/format.rs:91-105 | Sectors 1 and 7, in this order, get the same FSInfo contents; no other sector changes; a disk error exactly on a fault |
| Format.InitFatTables | arona_kernel/src/fat32/format.rs:107-132 | Both copies are zeroed in order and then get the three reserved entries, all others being free; nothing outside them changes; a disk error exactly on a fault |
| Format.FirstFatBytes | arona_kernel/src/fat32/format.rs:117-123 | The first twelve bytes of either FAT, and the words that transfer them |
| Format.InitRootDirectory | arona_kernel/src/fat32/format.rs:134-141 | The root cluster is zero; nothing else changes; a disk error exactly on a fault |
| Format.FormattedFats | arona_kernel/src/fat32/format.rs:107-132 | Decoded, the two FAT areas are equal: three reserved entries and all others free |
| Format.PhasesCompose | arona_kernel/src/fat32/format.rs:145-153 | No phase overwrites what an earlier one wrote, and of the data area only the root cluster changes |
| Format.FormatDisk | arona_kernel/src/fat32/format.rs:145-153 | From any contents, every state on the way comes from the next of the 2062 planned sector writes; Ok, the answer exactly when there was no fault, leaves a formatted volume, with the data clusters after the root untouched |
| FormatStopped.CallIsStopped | arona_kernel/src/fat32/format.rs:145-153 | Every state of the drive during and after a call of format, failed ones included, is one that format stopped after some number of writes leaves |
| FormatStopped.SectorAfter | arona_kernel/src/fat32/format.rs:145-153 | After that many writes every sector has what the last write to it put there, or what it had |
| FormatStopped.StoppedVolume | arona_kernel/src/fat32/format.rs:145-153 | Stopped anywhere, the data clusters after the root are as before; the root directory is until both FATs are complete, the FATs are until the boot and FSInfo sectors are written |
| FormatStopped.PhasesInOrder | arona_kernel/src/fat32/format.rs:145-153 | If anything in the data area changed both FATs hold the fresh entries, and if anything in the FATs or the data area changed the four boot and FSInfo sectors are written |
| FormatStopped.EarlyStopKeepsFiles | arona_kernel/src/fat32/format.rs:145-153 | Stopped within the first four writes, the invariant holds and every file is there as it was |
| FormatStopped.MidwayStopBreaksVolume | arona_kernel/src/fat32/format.rs:107-132 | Stopped while the FATs are cleared, not even the root directory's cluster is in use and the invariant does not hold |
| Format.FormattedIsEmpty | arona_kernel/src/fat32/format.rs:107-153 | A formatted volume satisfies the invariant, lists no file, and its copies are equal |
| Context.SwitchSavesAndRestores | arona_kernel/src/context.rs:61-89 | A switch saves registers, return address and stack pointer in a seven-word frame on the stack it leaves, takes them from the other frame, and writes nothing else |
| Context.FreshStackFrame | arona_kernel/src/context.rs:35-53 | A fresh stack reads as a suspended task at its entry with zeroed registers and an empty stack; nothing below or above changes |
| Context.Cpu.InitTaskStack | arona_kernel/src/context.rs:35-53 | Builds that frame and returns its address |
| Context.Cpu.SaveRegs | arona_kernel/src/context.rs:64-69 | The six pushes |
| Context.Cpu.RestoreRegs | arona_kernel/src/context.rs:79-88 | The six pops and the return undo them on the frame at the stack pointer |
| Context.Cpu.SwitchTo | arona_kernel/src/context.rs:61-90 | The machine after the switch and the stack pointer stored for the suspended task |
| Scheduler.TickSwitches | arona_kernel/src/scheduler.rs:44-67 | A tick keeps the separation invariant, suspends the running task with exactly what it was, resumes the next with exactly its frame and leaves all other frames intact |
| Scheduler.SpawnKeeps | arona_kernel/src/scheduler.rs:31-35 | A spawn keeps the invariant and every suspended frame, and the new task is pending at its entry |
| Scheduler.StepKeeps | arona_kernel/src/scheduler.rs:31-67 | Every step keeps the invariant and the frame of every task suspended before and after it |
| Scheduler.RunsAreSafe | arona_kernel/src/scheduler.rs:17-67 | The invariant holds in every state of a run that starts in it |
| Scheduler.InitialInv | arona_kernel/src/scheduler.rs:19-28 | The system with the one task that `init` registers satisfies the invariant, given an aligned stack pointer with room for a frame |
| Scheduler.SwitchIsTransparent | arona_kernel/src/scheduler.rs:44-67 | Over whole runs, a resumed task has the callee-saved registers, stack pointer and return address it had when last switched out |
| Scheduler.StackIsKept | arona_kernel/src/scheduler.rs:44-67 | Over whole runs, every word a task had on its stack when it was switched out is unchanged until and when it is resumed |
| Scheduler.LoneTaskIsUndisturbed | arona_kernel/src/scheduler.rs:51-53 | Over whole runs, a tick with fewer than two tasks changes nothing |
| Scheduler.FirstRunStartsAtEntry | arona_kernel/src/task.rs:15-25 | Over whole runs, a spawned task first runs at its entry with zeroed registers and its stack empty |
| Scheduler.RoundRobinIsFair | arona_kernel/src/scheduler.rs:54-56 | Over any stretch of a run without spawns turn counts differ by at most one, and n ticks give each of n tasks one turn |
| Scheduler.NoStarvation | arona_kernel/src/scheduler.rs:31-56 | With spawns in between, a task gets its turn within one round plus one tick per spawn |
| Scheduler.SpawnKeepsOrder | arona_kernel/src/scheduler.rs:31-35 | A new task never changes which of two older ones comes first |
| Scheduler.Kernel.Init | arona_kernel/src/scheduler.rs:19-28 | The running flow of control becomes task 0 |
| Scheduler.Kernel.SpawnContext | arona_kernel/src/scheduler.rs:31-35 | Appends the context, or reports the panic without a scheduler |
| Scheduler.Kernel.NewTask | arona_kernel/src/task.rs:15-25 | Building the stack and registering the context is the spawn step of the system |
| Scheduler.Kernel.Schedule | arona_kernel/src/scheduler.rs:44-67 | Is the tick of the system; without a scheduler or a second task the machine and the saved pointers are as before |
| Frames.StreamIsUsable | arona_kernel/src/memory.rs:60-66 | Every frame of the stream is a whole frame of a usable region |
| Frames.StreamIsComplete | arona_kernel/src/memory.rs:60-66 | Every whole frame of a usable region is in the stream |
| Frames.StreamIsOrdered | arona_kernel/src/memory.rs:60-66 | The frames come region by region in the order of the map, and within a region by ascending address |
| Frames.StreamIsDistinct | arona_kernel/src/memory.rs:60-66 | No frame is in it twice |
| Frames.AllocationsDistinct | arona_kernel/src/memory.rs:69-74 | Successive answers are different usable frames, and after the first "none" always "none" |
| Frames.EveryFrameIsHandedOut | arona_kernel/src/memory.rs:69-74 | Every usable frame is the answer of some call |
| Frames.BootInfoFrameAllocator.AllocateFrame | arona_kernel/src/memory.rs:70-74 | The answer is the next element of the stream |
| Frames.Mapper.MapTo | arona_kernel/src/allocator.rs:43-45 | Drawing page tables from the allocator, at most three, keeps pages and tables on different frames; every frame drawn becomes a table, and "no frame" is answered exactly when the stream has run out |
| Frames.HeapPagesCoverHeap | arona_kernel/src/allocator.rs:30-36 | The inclusive page range covers exactly the heap's addresses |
| Frames.InitHeap | arona_kernel/src/allocator.rs:26-46 | On success every heap page has a usable frame of its own, shared with no other page and no page table, and the frames drawn are those of the 25 pages and the new tables; "no frame" is answered exactly when the stream has run out, and with 100 frames left the call succeeds unless the mapper refuses |

## Left out

- Torn sector writes: a sector write happens whole or not at all, as the driver checks for errors before it transfers a word; a power failure inside a sector write is not modelled.
- Errors the drive reports after the data phase of a write: the driver does not read the error bit there (`ata.rs:93-99`), so `write_sector` would answer Ok for a write that failed; every statement about what is on the disk assumes that this does not happen.
- Status polling, port numbers and commands of the ATA driver: a wait ends with the drive ready or with an error.
- FileSystem.WriteFile: its contract covers volumes that satisfy the file-system invariant, which `format` establishes and every call keeps, crashes included; what it does to a foreign or damaged volume is not stated.
- Fat.AllocateClusterChain: likewise stated for volumes whose used clusters are a prefix.
- Chain.WriteDataToChain: stated for chains of different clusters that are long enough for the data, as the allocation makes them.
- Directory.AddEntry: stated for directories whose live slots come first, which the file-system invariant includes.
- Release builds without overflow checks, where `cluster_to_sector` would wrap instead of stopping: the wrap can only be reached from a damaged volume.
- Long file names, subdirectories, deletion and overwriting: the code does not have them.
- The random source of the volume id: the id is a parameter.
- Contexts kept in a growing vector: the model holds references to context objects, so a reallocation of the vector between taking the pointers and the switch, which the source excludes by running with interrupts off, is not modelled.
- The scheduler lock, interrupt entry and exit, and caller-saved registers: `schedule` is one step.
- Stack overflow: the running task is assumed to leave room for one frame on its stack.
- Unaligned stacks: stack pointers are multiples of eight and memory is word-addressed.
- Frames.Mapper.MapTo: the page mapper is a library; only its use of frames is modelled, with up to three page tables per page and refusals at will.
- The `linked_list_allocator` heap, the boot loader, paging hardware, serial and VGA output, RTC, random numbers.
- The user-space workspaces and the kernel's Guardian, permission and trust modules: short checks and I/O, not modelled.
