# Models of the Teto kernel and its host

Teto is the repository's RV64 kernel, written over one flat byte memory. This project models the parts of it that carry the weight, the loaders and writers around it, and the smaller cores of the host, and proves what they are for:

- **Guest address space.** An open-addressed page table with linear probing over a physical arena that is filled from both ends, and `brk`, `mmap`, `munmap`, `mprotect` and `mremap` over an unordered mapping table. The table refines a flat zero-filled byte map; every call acts pointwise on that map, keeps the address space sound over every sequence of calls, and leaves every other process as it was; protection and segment flags decide what a program may touch. Modules `PageTables`, `Frames`, `Ownership`, `RangeWork`, `GuestMemory`, `Mappings`, `MapCutting`, `MapProtecting`, `MapTables`, `Spaces`, `Processes`, `Permissions`, `AddressLaws`, `Kernels`.
- **Program files and the initial stack.** The JSON recogniser, the THX loader from bytes to guest memory, and the initial stack, on which `argv` and `envp` read back as the strings the host packed. Modules `Json`, `ThxText`, `ThxStrict`, `Thx`, `ThxKeys`, `Images`, `ImageCopying`, `Startups`, `StartupPacking`, `StackLayout`, `InitialStacks`.
- **The root file system.** The host's serialiser and the kernel's loader and resolver: what is serialised loads back as the same tree, every path resolves to its inode or where its link leads, for every user, and the checksum sees each changed byte. Modules `VfsPaths`, `VfsSerializing`, `VfsHost`, `VfsWriting`, `VfsLayout`, `VfsImages`, `VfsLoading`, `VfsRoundTrip`, `VfsResolving`, `VfsNaming`, `VfsLookup`, `Checksums`.
- **The hart scheduler** as interleaved steps of workers, resumes and exits: safety, accounting, a round-robin bound, and what a resume, an end and a batch achieve under every interleaving. Modules `Scheduler`, `SchedulerRuns`.
- **Host cores.** Link structure of the in-memory file system (`Links`, `LinkPaths`), dumping and loading file trees with hard links (`Sorting`, `HostTrees`, `TreeShapes`, `TreeLoading`, `TreeRoundTrip`, `TreeReturn`), the static web root with its overlay (`Overlay`, `OverlayRuns`), sparse memory (`SparseMemory`) and the host's view of guest memory (`HostMemory`), wide multiplication and division (`WideWords`), and the shell's arithmetic (`Arithmetic`, `ArithmeticReading`, `ArithmeticText`, `ArithmeticLaws`).

Code that changes state is modelled by classes and methods with loops, and each method is proved against a specification function or predicate; the laws are lemmas about those. Where a specification is itself a table of cases (answers, permissions, steps, operators), a second module says what it means without naming it: over two calls (`Permissions`), over runs (`SchedulerRuns`, `OverlayRuns`), or by paths (`LinkPaths`, `VfsNaming`, `VfsLookup`). `State()` of a process is its whole address space as a value, and `Sound` the invariant that all memory calls keep. Some predicates are wrapped in a recursion on a small constant (`FOLDS`, `LAYERS`) so that callers hand them on unopened; beside each stands a lemma that says what it means in plain terms.

`dafny verify dfyconfig.toml` checks the whole project.

## Model

| member | source | states |
|---|---|---|
| `GuestMemory.Arena.ImageReserve` | src/teto/kernel.ts:737-759 | Succeeds exactly when the size is in range, nothing is reserved, the lock is free and the rounded size fits above the frames; the reservation is then the top of the arena, and `next <= imageTop <= end` still holds. |
| `GuestMemory.Arena.ImageContains` | src/teto/kernel.ts:761-766 | A contained range lies between the top of the frames and the end of the arena. |
| `GuestMemory.Arena.ImageRelease` | src/teto/kernel.ts:768-782 | Releases exactly the live reservation, named by its place and rounded size; any other call changes nothing. |
| `GuestMemory.GuestMemory.Probe` | src/teto/kernel.ts:986-1038 | Linear probing is exact: the slot found holds the key; otherwise the key is nowhere in the table, and the slot is the first free one after a run of occupied slots, or the table is full. |
| `GuestMemory.GuestMemory.FindPage` | src/teto/kernel.ts:986-1001 | Looking up without making: the frame of the page, "unmapped", or failure outside the address space and for an absent page in a full table. |
| `GuestMemory.GuestMemory.GuestPage` | src/teto/kernel.ts:986-1038 | The answer for every address; a page made reads as zeros, so guest memory as a flat byte map does not change, and no other process or image byte is touched. |
| `GuestMemory.GuestMemory.ClearMappedRange` | src/teto/kernel.ts:1040-1058 | Guest memory afterwards is the old one with exactly the range zeroed; the table is unchanged. |
| `GuestMemory.GuestMemory.CopyAllocatedRange` | src/teto/kernel.ts:1328-1360 | On success the target holds what the source held, absent source pages included, though the loop inserts pages into the table it scans; on failure nothing outside the target changed. |
| `GuestMemory.GuestMemory.StoreWord` | src/teto/kernel.ts:1458-1468 | A store succeeds exactly when its range lies in memory and every page of it has a frame afterwards, and leaves the bytes of the number in place; one that fails changed at most its own range. |
| `GuestMemory.GuestMemory.LoadWord` | src/teto/kernel.ts:1446-1456 | The little-endian number of the flat memory, across page boundaries; zero if a byte cannot be read. |
| `PageTables.InsertKeepsProbing` | src/teto/kernel.ts:1010-1030 | Filling the slot that probing ends at keeps the table exact: each key once, every slot from its hash to its place occupied. |
| `Frames.WriteInFrame` | src/teto/kernel.ts:986-1038 | Bytes written to one frame are the same bytes written at the page of the flat memory and nowhere else. |
| `Ownership.FramesNeverMeet` | src/teto/kernel.ts:1010-1030 | Frames handed out for two different pages do not overlap and lie below the next free frame. |
| `Ownership.OthersUnaffected` | src/teto/kernel.ts:986-1038 | Work done for one process leaves the frames, and so the whole memory, of every other process as they were. |
| `Words.WordRoundTrip` | src/teto/kernel.ts:1446-1468 | The number stored is the number loaded. |
| `SparseMemory.Mem64.Create` | src/vm/mem64.ts:34-37 | A memory is made exactly for sizes in range, and is all zeros. |
| `SparseMemory.Mem64.Read` | src/vm/mem64.ts:39-44 | Fails exactly outside the memory; otherwise gives the bytes of the flat memory. |
| `SparseMemory.Mem64.Write` | src/vm/mem64.ts:46-54 | Fails outside the memory leaving everything, succeeds exactly when the pages it has to make (absent ones that get a byte other than zero) fit the budget, and is then the flat write; for want of budget a prefix is written. |
| `SparseMemory.Mem64.Drop` | src/vm/mem64.ts:56-66 | Zeroes exactly the range, and the pages that go are exactly those that lie wholly in it; used bytes stay 65536 times the pages and within the cap. |
| `SparseMemory.Mem64.Load` | src/vm/mem64.ts:68-102 | The fast path of every width, and the slow one across a boundary, give the little-endian number of the flat memory. |
| `SparseMemory.Mem64.Set` | src/vm/mem64.ts:120-151 | The fast path of every width, with its skipped zeros, does what writing the bytes of the number does, with the same failures. |
| `SparseMemory.StoredThenLoaded` | src/vm/mem64.ts:145-151 | A number stored is loaded back modulo its width, and numbers that do not overlap it stay. |
| `HostMemory.Read` | src/teto/mem64.ts:27-41 | Over the hashed table: fails outside the memory or when a lookup fails, and otherwise gives the bytes of the flat guest memory. |
| `HostMemory.Write` | src/teto/mem64.ts:43-57 | Success is the flat write; a write that stops has written exactly what comes before an address whose page is not there, so a range whose pages are there is always written; other processes are not touched. |
| `HostMemory.Drop` | src/teto/mem64.ts:59-71 | Zeroes exactly the range and makes no page; fails exactly outside the memory or when a lookup fails, and then a beginning of the range is zeroed. |
| `Processes.Process.MappingConflict` | src/teto/kernel.ts:1310-1326 | No conflict exactly when the range keeps its distance from break and stack and meets no mapping but the excepted one. |
| `Processes.Process.CountSplits` | src/teto/kernel.ts:1152-1168 | Counts exactly the entries that cutting the range will append. |
| `Processes.Process.AnonymousUnmap` | src/teto/kernel.ts:1141-1207 | munmap acts pointwise: on success owners, protection and file position change only inside the range, where nothing is mapped any more and bytes are zero; any error changes nothing. |
| `Processes.Process.AnonymousMap` | src/teto/kernel.ts:1090-1139 | mmap answers as specified for every argument; on success one mapping is added that meets no other and whose bytes are zero; any error changes nothing. |
| `Processes.Process.Protect` | src/teto/kernel.ts:1231-1308 | mprotect answers as specified; on success the protection of each address changes exactly inside the range; any error changes nothing. |
| `Processes.Process.ProgramBreak` | src/teto/kernel.ts:2420-2451 | The break moves exactly when it may; growing gives zeros, shrinking zeroes; otherwise nothing changes. |
| `Processes.Process.RemapAnonymous` | src/teto/kernel.ts:1362-1406 | The answer for every argument. A mremap that moves leaves the new range with the old bytes followed by zeros, the old range zero and unowned, every other byte and mapping as before; if it cannot move, the answer is -12 (or -22, when the mapping has flags that mmap refuses) and source bytes and the mapping table are as before. |
| `Processes.Process.Commit` | src/teto/kernel.ts:1398-1404 | Unmapping the source after the copy always succeeds and completes the move. |
| `MapTables.MapTable.Covers` | src/teto/kernel.ts:1209-1229 | True exactly when every address of the range is owned; the loop over the unordered table ends. |
| `MapTables.MapTable.Protect` | src/teto/kernel.ts:1231-1308 | The table grows by exactly the entries counted beforehand, so it never overflows. |
| `Mappings.OwnerWithout` | src/teto/kernel.ts:1192-1198 | Removing an entry by moving the last into its place changes the owner of its addresses alone. |
| `MapCutting.LoseRange` | src/teto/kernel.ts:1178-1204 | Cutting a range out of all entries leaves the owners outside it. |
| `MapProtecting.PaintMiddle` | src/teto/kernel.ts:1280-1302 | Painting the middle of an entry splits it in three and changes the protection there alone. |
| `Spaces.UnmapKeepsSound` | src/teto/kernel.ts:1141-1207 | munmap keeps the address space sound: mappings non-empty, aligned, pairwise disjoint, more than 1 MiB from break and stack, every byte not in use zero. |
| `Spaces.ProtectKeepsSound` | src/teto/kernel.ts:1231-1308 | mprotect keeps the address space sound. |
| `Spaces.MapKeepsSound` | src/teto/kernel.ts:1090-1139 | mmap keeps the address space sound, and the new range was not in use and reads as zeros. |
| `Spaces.ResizeKeepsSound` | src/teto/kernel.ts:1380-1392 | Resizing a mapping in place keeps the address space sound, and what it gains reads as zeros. |
| `Spaces.BreakKeepsSound` | src/teto/kernel.ts:2420-2451 | Moving the break keeps the address space sound, and memory gained reads as zeros. |
| `Spaces.StoreKeepsSound` | src/teto/kernel.ts:1764-1774 | A permitted store keeps the address space sound. |
| `Spaces.CopyArrived` | src/teto/kernel.ts:1393-1397 | After the copy, both mappings are there and the new one holds the bytes of the old. |
| `Spaces.CopyAbandoned` | src/teto/kernel.ts:1393-1397 | After a failed copy, only the new mapping can differ, and removing it gives the old state. |
| `Spaces.RefusedForRoom` | src/teto/kernel.ts:1393-1397 | A mapping with the flags mmap took is refused with -12 when it cannot be moved. |
| `Processes.Process.GuestAllowed` | src/teto/kernel.ts:944-981 | True exactly when every address of the range lies in one segment, heap, stack or mapping with the permission. |
| `Processes.Process.StoreInteger` | src/teto/kernel.ts:1764-1774 | A store happens exactly where it is allowed and every page of the range has a frame afterwards, leaves the bytes of the number, and changes its own bytes only. |
| `Processes.Process.LoadInteger` | src/teto/kernel.ts:1746-1762 | A load gives the number of the flat memory exactly where reading is allowed. |
| `Permissions.ProtectThenTouch` | src/teto/kernel.ts:1231-1308 | Protect a range, then store to, load from and fetch from a part of it outside segments, stack and heap: without the write bit (2) the store is refused and changes nothing, without the read bit (1) the load is refused, nothing is fetched; inside one mapping both are let through exactly when their bit is set. |
| `Permissions.ProtectedTouch` | src/teto/kernel.ts:944-981 | After mprotect a range is read or written exactly when one mapping holds it and the new protection has the bit, however the mappings were divided. |
| `Permissions.TouchSegment` | src/teto/kernel.ts:951-964 | A store, a load and a fetch in a segment are let through exactly when the flags of the first segment that holds the range have bit 2, 1 and 4. |
| `Permissions.SegmentDecides` | src/teto/kernel.ts:958-964 | The three bits of the segment flags, for each kind of access. |
| `Permissions.GrantsIsMask` | src/teto/kernel.ts:961 | The bits asked for are granted exactly when masking with what is granted leaves them. |
| `Permissions.StackAndHeap` | src/teto/kernel.ts:966-970 | Stack and heap are read and written, and never fetched from. |
| `AddressLaws.BreakExactly` | src/teto/kernel.ts:2420-2451 | The break may move exactly to where it stays more than 1 MiB below the stack and below every address a mapping owns. |
| `AddressLaws.HeapApart` | src/teto/kernel.ts:2420-2451 | After the break moved, more than 1 MiB lies between any byte of the heap and any byte of stack or mappings above it. |
| `AddressLaws.PlacedBehind` | src/teto/kernel.ts:1090-1139 | A mapping that asks for no address is put right behind all others, as long as there is room below the stack. |
| `AddressLaws.TwoInARow` | src/teto/kernel.ts:1090-1139 | So two such mappings in a row lie one right behind the other. |
| `AddressLaws.RemapKeepsBytes` | src/teto/kernel.ts:1362-1406 | Whenever mremap succeeds, in place or by moving, the old bytes are at the answer and what the mapping gained is zero. |
| `AddressLaws.RemapStays` | src/teto/kernel.ts:1362-1406 | Without leave to move, the answer is the old address, or an error and nothing changed. |
| `Kernels.Kernel.Execute` | src/teto/kernel.ts:2501-2547 | Each call has its specified effect on its own process, keeps every process sound, and leaves every other process exactly as it was. |
| `Kernels.Kernel.Image` | src/teto/kernel.ts:737-782 | Reserving and releasing image space leaves every process as it was. |
| `Kernels.Kernel.Schedule` | src/teto/kernel.ts:2501-2547 | Over every sequence of calls, stores and reservations of all processes, all address spaces stay sound and all page tables exact. |
| `Kernels.Kernel.FramesApart` | src/teto/kernel.ts:986-1038 | In every valid kernel the frames of two different pages, of one process or of two, never overlap and lie below the image reservation. |
| `Images.ImageBegin` | src/teto/kernel.ts:1484-1526 | Begins exactly when the sizes are in range; the address space is then empty. |
| `Images.ImageSegment` | src/teto/kernel.ts:1528-1589 | A segment is placed exactly when it is inside the address space, meets no other and its name is new; its memory is then its payload followed by zeros. |
| `Images.ImageFinish` | src/teto/kernel.ts:1591-1613 | Finishes exactly when the entry lies in an executable segment; the break is the page-rounded largest segment end, and the address space is sound. |
| `Images.LoadSection` | src/teto/thx.ts:332-343 | A section is refused exactly when it is ill described or does not fit with those before it; otherwise its payload is in place. |
| `Images.PowerOfTwoMeans` | src/teto/thx.ts:340-341 | The alignments allowed are exactly the powers of two. |
| `Images.LoadedMeans` | src/teto/kernel.ts:1484-1613 | What a loaded program is, in plain terms: segments are the sections, memory is their payloads and zero elsewhere, the entry is executable, the break is the rounded end of the highest. |
| `ThxText.SpelledMeans` | src/teto/thx.ts:270-353 | What an accepted object says, in plain terms: its members stand one after the other, each known key once, every value in the form its key asks for, and absent optional keys mean zero. |
| `ThxText.ReadObject` | src/teto/thx.ts:292-331 | An object is read exactly when the text spells one with all needed keys: what is read is spelled, and every spelling has the members and the end that were read. |
| `ThxText.ParseUnsigned` | src/teto/thx.ts:151-164 | A number read is the value of its digits, without leading zeros and at most 2^53 - 1; every such number that no digit follows is read. |
| `ThxText.SectionFlags` | src/teto/thx.ts:250-268 | The flags are refused exactly when a letter is none of r, w and x or comes twice; those read are the ones of the letters. |
| `ThxText.SameHead` | src/teto/thx.ts:384-437 | An object describes one program at most: its members determine every field. |
| `ThxStrict.StrictExactly` | src/teto/thx.ts:292-331 | An object of the loader whose values are JSON values is a JSON object exactly when no comma stands before its bracket. |
| `ThxStrict.SpelledStrict` | src/teto/thx.ts:384-437 | A header or section object that is accepted is a JSON object exactly when no comma stands before its bracket. |
| `ThxStrict.CommaAllowed` | src/teto/thx.ts:326-331 | The text {"a":0,} is an object of the loader and no JSON object. |
| `Thx.LoadList` | src/teto/thx.ts:270-353 | The sections placed are the ones the list spells, in its order, each acceptable; memory is their payloads. A list that is spelled is the one that is read, and it is refused only if it is not acceptable or memory runs out. |
| `Thx.CheckSeal` | src/teto/thx.ts:355-369 | Passes exactly the files with the right magic, lengths that add up and the right checksum. |
| `ThxKeys.HeaderNumbers` | src/teto/thx.ts:384-437 | In an accepted header the numbers behind "entry", "mem", "phdr", "phent" and "phnum" are the entry point, the memory size and the program header fields. |
| `ThxKeys.SectionNumbers` | src/teto/thx.ts:296-334 | In an accepted section the numbers behind "align", "size", "addr", "at" and "len" are its fields of that meaning. |
| `ThxKeys.SectionLetters` | src/teto/thx.ts:254-273 | The letters r, w and x behind "flg" are the bits 1, 2 and 4 of the flags, and there are no others. |
| `Thx.ChangeBreaksSeal` | src/teto/thx.ts:355-369 | A file that passes does not pass any more once any one of its bytes is changed. |
| `Thx.LoadThx` | src/teto/thx.ts:355-446 | Past the seal exactly for sealed files of the reservation; on success the header text spells the program and its sections, segments are disjoint and inside the address space, the entry is executable, and guest memory is the payload bytes at each segment and zero everywhere else. A sealed file whose text spells a runnable program is loaded as that program, or memory runs out. |
| `Json.ParseString` | src/teto/thx.ts:64-95 | Finds exactly the string literal that starts here, if there is one (section 7 of RFC 8259, strings as bytes). |
| `Json.SkipNumber` | src/teto/thx.ts:172-190 | What is skipped is a number; a number that starts here and is followed by a delimiter is skipped exactly (section 6 of RFC 8259). |
| `Json.SkipValue` | src/teto/thx.ts:192-236 | Sound and complete: what is skipped is whitespace and a well-formed value, and every well-formed value within the nesting limit followed by a delimiter or the end is skipped exactly; it ends and reads only before the end. |
| `Json.SkipGroup` | src/teto/thx.ts:208-234 | The same for arrays and objects: the parts found are the only ones. |
| `Startups.StartupEntry` | src/teto/start.ts:27-38 | Reads an entry exactly when it fits the block and its string has no zero byte. |
| `InitialStacks.Measure` | src/teto/start.ts:54-68 | The first pass accepts exactly the blocks whose entries are whole and take at most 2^31 - 1 bytes, and adds up their sizes. |
| `InitialStacks.Place` | src/teto/start.ts:70-87 | The place found is the highest one, and one is found exactly when there is one: table and strings between the top and the bottom of the stack, 1 MiB above the image. |
| `InitialStacks.SecondPass` | src/teto/start.ts:69-132 | The second pass never refuses what the first accepted, lands on the address computed by the first, and changes memory between sp and the top only. |
| `InitialStacks.StackPrepare` | src/teto/kernel.ts:1615-1639 | Memory from sp to the top is zero, and sp lies between the stack bottom and the top. |
| `InitialStacks.StackCopy` | src/teto/kernel.ts:1641-1667 | Success writes exactly the source bytes; a source outside the reservation is refused. |
| `InitialStacks.StackAux` | src/teto/kernel.ts:1672-1711 | The 15 auxiliary pairs stand in order from the given word on. |
| `InitialStacks.BuildInitialStack` | src/teto/start.ts:40-132 | A block is refused as malformed only when it is, and as out of range only when it lies outside the reservation, its strings take more than 2^31 - 1 bytes, or there is no place for the stack; so a well-formed block that fits is refused only when guest memory runs out. On success the stack is that of the block, sp is 16-byte aligned inside the stack, and the address space is sound. |
| `InitialStacks.ArgumentsArrive` | src/vm/rv64.ts:381-402 | Following argc, argv and envp from sp through guest memory and reading zero-terminated strings gives exactly the strings the host packed; both null words and the 15 pairs are in place. |
| `StartupPacking.Pack` | src/vm/rv64.ts:381-402 | The host packs exactly the block, unless it would be too large. |
| `StartupPacking.BlockRead` | src/vm/rv64.ts:381-402 | Reading a packed block gives back the counts, the strings and the random bytes. |
| `StartupPacking.BlockAccepted` | src/teto/start.ts:40-68 | A packed block is accepted exactly when the counts are in range and no string has a zero byte. |
| `VfsLoading.Vfs.AllocateData` | src/teto/vfs.ts:116-125 | Takes the next rounded piece of the arena exactly when it fits. |
| `VfsLoading.Vfs.SameName` | src/teto/vfs.ts:140-149 | The hash and the bytes agree exactly when the names are the same. |
| `VfsLoading.Vfs.IsName` | src/teto/vfs.ts:127-138 | Accepts exactly the names of 1 to 255 bytes without zero and slash, other than dot and double dot. |
| `VfsLoading.Vfs.Load` | src/teto/vfs.ts:324-439 | For every byte image: the same verdict as the decoding function, and on success exactly its tree; a failed load publishes nothing. |
| `VfsLoading.Vfs.ReadData` | src/teto/vfs.ts:312-322 | Copies exactly the bytes of the file from the offset on into the reservation, or refuses. |
| `VfsImages.DecodedProper` | src/teto/vfs.ts:348-425 | Whatever the bytes, a tree that is decoded is proper: names lead from directories to nodes that are there, no name twice in a directory, the root a directory. |
| `VfsImages.DecodedSealed` | src/teto/vfs.ts:324-335 | Whatever is decoded carries the magic number, version 1, its own length and the checksum of its bytes, and has as many nodes and names, and the root, that the header says. |
| `Checksums.OneByteSeen` | src/teto/vfs.ts:106-114 | Changing one byte changes the checksum: each step of the hash is undone by the inverse of its odd prime. |
| `Checksums.ChangedRefused` | src/teto/vfs.ts:333-335 | An image of which one byte behind the header was changed is refused for its checksum. |
| `VfsLayout.LaidDecodes` | src/teto/vfs.ts:324-439 | A laid-out image decodes to its tree, modes masked to 12 bits. |
| `VfsPaths.SameSplit` | src/teto/vfs-host.ts:58-67 | A path is its parent and its last part: paths with the same two are the same. |
| `VfsSerializing.Collect` | src/teto/vfs-host.ts:76-108 | Accepts exactly the lists whose entries are valid, with different paths and agreeing hard links; nodes are then the entries with their link counts. |
| `VfsHost.MakeTree` | src/teto/vfs-host.ts:76-136 | Accepts exactly the lists of valid entries with one directory root, single directories and a directory above every entry; the tree has one node for each inode and one name for each path. |
| `VfsHost.Serialize` | src/teto/vfs-host.ts:76-169 | Succeeds exactly for the accepted lists, sorted by path, whose tree fits; the output is then the image of the tree. |
| `VfsWriting.WriteImage` | src/teto/vfs-host.ts:138-168 | The bytes written are the header, the node records and the name records of the tree, sealed with the checksum. |
| `VfsRoundTrip.TreeLoadable` | src/teto/vfs-host.ts:110-136 | The tree of an accepted list is within every bound the loader checks. |
| `VfsRoundTrip.SerializedDecodes` | src/teto/vfs-host.ts:76-169 | A serialised list, at any place in the arena, decodes to its tree: same kinds, owners, link counts and payload bytes, modes masked to 12 bits. |
| `VfsRoundTrip.LoadSerialized` | src/teto/vfs.ts:324-439 | Loading a serialised list from the live reservation succeeds, and the file system holds its tree. |
| `VfsLookup.EntryLoaded` | src/teto/vfs-host.ts:138-160 | After loading, the node of each entry has its kind, mode, owner, link count, times and payload. |
| `VfsResolving.FindChild` | src/teto/vfs.ts:151-164 | Finds the node of a name in a directory, or none. |
| `VfsResolving.FindParent` | src/teto/vfs.ts:166-177 | Finds the directory a node is named in; the root is its own. |
| `VfsResolving.Search` | src/teto/vfs.ts:189-198 | The search permission of user, group and others; root may search everything. |
| `VfsResolving.ResolveRange` | src/teto/vfs.ts:209-257 | For every tree, path and credentials resolution ends and gives the specified node or error, through at most 32 links. |
| `VfsResolving.Resolve` | src/teto/vfs.ts:297-307 | Refuses an unloaded file system and paths over 4096 bytes; otherwise resolves. |
| `VfsLookup.EntryResolves` | src/teto/vfs.ts:209-257 | For every user, the path of every entry of a serialised list that is no link to be followed resolves to its inode, and to -13 exactly when some directory on the way lacks the search bit of that user. |
| `VfsLookup.ResolvesExactly` | src/teto/vfs.ts:209-257 | A valid path with no link on the way resolves exactly when it is listed and the user may search every directory on the way. |
| `VfsLookup.LinkResolves` | src/teto/vfs.ts:243-252 | Following a listed link is resolving its target with one hop more: in the directory of the link if it is relative, in the root if it is absolute; an empty or too long target is not found. |
| `VfsLookup.LinkToItself` | src/teto/vfs.ts:218 | A link to its own path is followed until the answer is -40. |
| `VfsLookup.DirectoryAbove` | src/teto/vfs.ts:233-238 | The path of a directory followed by `/..` resolves to the directory it lies in, and the root to itself. |
| `VfsLookup.FileAbove` | src/teto/vfs.ts:233-238 | The path of a file followed by `/..` resolves to the directory of one of the names of the file. |
| `VfsNaming.ByPieces` | src/teto/vfs.ts:209-257 | In any tree, a path of two pieces with slashes between them resolves like the second piece in the directory that the first, followed through every link, leads to; an error of the first is the error of the whole. |
| `VfsNaming.FromRoot` | src/teto/vfs.ts:219-223 | An absolute path resolves in the root, wherever resolution starts. |
| `VfsNaming.DotStays` | src/teto/vfs.ts:232 | The part `.` stays in its directory. |
| `VfsNaming.SlashesEnd` | src/teto/vfs.ts:255 | Slashes at the end ask for a directory. |
| `VfsNaming.BelowFile` | src/teto/vfs.ts:231-240 | Behind what is no directory a name is refused, but `.` is passed over. |
| `VfsLookup.ResolveEntry` | src/teto/vfs.ts:297-307 | On a loaded image the kernel answers the inode of the entry, or -13, for each path up to 4096 bytes. |
| `Scheduler.InitialSound` | src/teto/kernel.ts:2830-2868 | Before anything runs, the invariant holds. |
| `Scheduler.StepExclusive` | src/teto/kernel.ts:2776-2928 | Every step of every actor keeps each lock with one holder. |
| `Scheduler.StepKnows` | src/teto/kernel.ts:2776-2928 | Every step keeps what a hart's owner knows of it, and that a free hart waits exactly when an event is pending. |
| `Scheduler.StepBalanced` | src/teto/kernel.ts:2830-2868 | Every step keeps the accounts of workers and harts in balance. |
| `Scheduler.StepSound` | src/teto/kernel.ts:2776-2928 | The whole invariant is kept by every step of every interleaving of workers, host resumes and exits. |
| `Scheduler.NeverTwoOwners` | src/teto/kernel.ts:2776-2928 | At no time do two actors hold the scheduler or the same hart. |
| `Scheduler.FreeHartSettled` | src/teto/kernel.ts:2453-2461 | At all times a hart whose lock is free is WAITING exactly when an event is pending. |
| `Scheduler.StaysExited` | src/teto/kernel.ts:2914-2928 | EXITED is final. |
| `Scheduler.QuietState` | src/teto/kernel.ts:2830-2868 | When no batch is in progress, active workers is 0, worker batches sum to scheduler claims, and worker instructions to hart instructions. |
| `Scheduler.NobodyPassed` | src/teto/kernel.ts:2845-2863 | When the scheduler is free, nobody is past a hart; the bound holds from any such state on. |
| `Scheduler.RoundRobin` | src/teto/kernel.ts:2845-2863 | A hart that is runnable and unlocked whenever a scheduler batch looks at it is picked, or fewer harts than there are have been picked meanwhile and no batch has ended idle. |
| `SchedulerRuns.ResumeWakes` | src/teto/kernel.ts:2874-2912 | Under every interleaving, when an actor that resumes a free hart is idle again, a hart that waited for this very event is runnable with no event, and any other is as it was; no other hart was touched. |
| `SchedulerRuns.EndExits` | src/teto/kernel.ts:2914-2928 | Under every interleaving, when an actor that ends a free hart is idle again, the hart has exited. |
| `SchedulerRuns.OwnedRefused` | src/teto/kernel.ts:2874-2918 | Resuming or ending a hart that is owned changes nothing at all. |
| `SchedulerRuns.WaitsUntilAsked` | src/teto/kernel.ts:2776-2928 | A free hart that waits for an event waits for it over every run in which nobody resumes it with this event or ends it. |
| `SchedulerRuns.BatchRuns` | src/teto/kernel.ts:2776-2828 | Under every interleaving, a batch that claimed a runnable hart executes until its budget is spent or an instruction ends the batch; the hart is left as the last instruction says, and hart and worker count exactly what was executed. On a hart that is not runnable it executes nothing. |
| `SchedulerRuns.NothingReady` | src/teto/kernel.ts:2845-2868 | A batch that ends without a hart has met each hart at a moment when it was not runnable or owned. |
| `SchedulerRuns.ClaimedReady` | src/teto/kernel.ts:2845-2863 | A hart that a batch claims was runnable when the batch looked at it and is its own now. |
| `Links.Vfs.Make` | src/fs/vfs.ts:321-336 | mkdir, symlink and char make one node with one name, or answer EEXIST and change nothing. |
| `Links.Vfs.MakeFile` | src/fs/vfs.ts:311-319 | A file is made exactly when the name is new and everything then reachable fits the budget; otherwise nothing changes. |
| `Links.Vfs.Remove` | src/fs/vfs.ts:345-355 | rm takes one name away and counts its node down, or answers the specified error and changes nothing. |
| `Links.Vfs.Rename` | src/fs/vfs.ts:357-371 | rename answers as specified; on success the new name leads to the node and the old one is gone, unless both are one name reached on two ways. |
| `Links.Vfs.Link` | src/fs/vfs.ts:373-381 | link adds one name to a node that is no directory. |
| `Links.Vfs.Used` | src/fs/vfs.ts:455-467 | The sum over everything reachable from the root, each node once. |
| `Links.Vfs.Paths` | src/fs/vfs.ts:428-441 | Exactly the paths below the start, once the walk ends. |
| `Links.CreatedCounted` | src/fs/vfs.ts:311-336 | Making a node keeps every link count equal to the entries that name the node. |
| `Links.LinkedCounted` | src/fs/vfs.ts:373-381 | link keeps every count. |
| `Links.RemovedCounted` | src/fs/vfs.ts:345-355 | rm keeps every count. |
| `Links.RenamedCounted` | src/fs/vfs.ts:357-371 | rename keeps every count and every directory with at most one name, even a directory moved into its own subtree. |
| `Links.UniquePath` | src/fs/vfs.ts:428-441 | Where counts are right, a directory is reached on one path only, so the part reachable from the root is a tree. |
| `Links.ShortPaths` | src/fs/vfs.ts:428-467 | Paths to directories are shorter than the number of nodes, so the traversals end. |
| `Links.AliasedRename` | src/fs/vfs.ts:357-371 | With `/d` a link to `/e`, renaming `/d/f` to `/e/f` answers success and deletes the file. |
| `Links.RenamedReached` | src/fs/vfs.ts:357-371 | After a rename the node is reached from the root exactly when the directory with its new name does not lie in or below it. |
| `Links.SwallowedRename` | src/fs/vfs.ts:357-371 | Renaming `/d` to `/d/e/f` answers success, and `/d` is reached from nowhere. |
| `LinkPaths.RemovePath` | src/fs/vfs.ts:345-355 | Told by paths alone: rm succeeds exactly on an empty directory or on anything else, as was asked, names each refusal exactly, and then every path but the removed one leads where it did. |
| `LinkPaths.RenamePath` | src/fs/vfs.ts:357-371 | Told by paths alone: when rename is refused and why; on success nothing lay below a replaced name, what lay at and below the old path lies at and below the new one, unless the new path is the old or lies below it: then it is lost. Every other path leads where it did. |
| `LinkPaths.RenamedPath` | src/fs/vfs.ts:364-368 | Where each path leads after a rename. |
| `LinkPaths.RemovedAt` | src/fs/vfs.ts:352-353 | Where each path leads after a removal. |
| `LinkPaths.MadeAt` | src/fs/vfs.ts:311-336 | After making a node its path leads to it, nothing lies below it, and every other path leads where it did. |
| `LinkPaths.LinkedAtPath` | src/fs/vfs.ts:373-381 | After a link the new path leads to the node, and every other where it did. |
| `LinkPaths.MakeFilePath` | src/fs/vfs.ts:311-319 | Told by paths alone: a file is made exactly when nothing is there and 128 bytes and its size are left, and takes exactly those. |
| `HostTrees.Dump` | src/fs/tree.ts:38-57 | A dump is the walk of the tree in the order of names, one number for each node, devices left out. |
| `TreeShapes.GoShape` | src/fs/tree.ts:41-54 | What a dump looks like: every entry tells its node, directories come before what they hold, and below a directory stands exactly what it lists. |
| `TreeLoading.HostFiles.Load` | src/fs/tree.ts:59-82 | Refuses exactly a list with a bad entry, changing nothing; otherwise the files are those placed in order of depth, and the budget error is given exactly when what hangs below the root, each node once, takes more than the budget. |
| `TreeLoading.HostFiles.FindParent` | src/fs/tree.ts:84-94 | The directory a path leads to, making what is missing. |
| `TreeLoading.Used` | src/fs/vfs.ts:455-467 | The bytes of the least set of nodes with the root that holds whatever its directories name. |
| `TreeReturn.DumpParentsFirst` | src/fs/tree.ts:38-57 | In a dump every entry but the first stands behind the directory it lies in. |
| `TreeReturn.LoadStands` | src/fs/tree.ts:59-82 | Whatever the order of a list that spells a tree, directories after what they hold included, each entry stands once it is loaded, with attributes, payload, names and link count. |
| `TreeLoading.ChosenMeans` | src/fs/tree.ts:64-65 | Of the entries of one number, the last that brings bytes or a target decides what is made, and the first if none does. |
| `TreeReturn.DumpLoadDump` | src/fs/tree.ts:38-94 | Dumping, loading into any directory of any file system, and dumping that gives the same entries, numbers included. |
| `TreeReturn.SharedAlike` | src/fs/tree.ts:59-94 | Two paths share a node after loading exactly when they did before, and every loaded node below the base has as many links as it has names. |
| `TreeReturn.ReturnTrip` | src/fs/tree.ts:38-94 | The whole trip as a run: the second dump equals the first. |
| `Sorting.SortFilter` | src/fs/tree.ts:65 | Sorting by depth is stable: entries of one depth keep their order. |
| `Overlay.WebTree.Whiteouts` | src/main/webtree.ts:274-283 | The whiteouts hide every deleted base path and no kept one that lies outside them, and no whiteout lies below another. |
| `Overlay.WebTree.RemoveData` | src/main/webtree.ts:317-326 | Removing data removes the file, or an empty folder of that name, and nothing else. |
| `Overlay.WebTree.WriteChanged` | src/main/webtree.ts:199-215 | All changed files are written exactly when each fits the stored files and folders at its turn; otherwise the files before the first that does not fit are written, and folders on the way to it are made. |
| `Overlay.WebTree.Push` | src/main/webtree.ts:190-231 | A push succeeds exactly when every changed file has its bytes and a place in the data store; the stored manifest then describes the tree, the files are those carried now and those the old manifest did not name, with their bytes, and the folders are known. A push that fails leaves the manifest, and the store as it is after the files before the first that could not be stored. |
| `Overlay.WebTree.DropStale` | src/main/webtree.ts:217-220 | Of the data the old manifest names, exactly what is not carried now is removed; all other bytes stay, and of the folders at most empty ones of such a name go. |
| `OverlayRuns.AfterPush` | src/main/webtree.ts:190-231 | On a steady store a push removes no folder; and if the manifest named every file before, the files afterwards are exactly those just carried. |
| `OverlayRuns.AfterStop` | src/main/webtree.ts:199-215 | A push that stops removes nothing and keeps the store steady. |
| `OverlayRuns.PushEach` | src/main/webtree.ts:190-231 | Over any pushes in a row folders only grow, and as long as none has stopped the files are those the last push carried. |
| `OverlayRuns.FileThenFolder` | src/main/webtree.ts:217-220 | Push `/x`, push without it, push a folder `/x` with a file: all three succeed. |
| `OverlayRuns.FolderThenFile` | src/main/webtree.ts:297-326 | Push a folder `/x` with a file, push without it, push a file `/x`: the third fails. |
| `OverlayRuns.PushBeside` | src/main/webtree.ts:190-231 | A stored file that the manifest does not name stays, whatever is pushed, until a push that succeeds carries it. |
| `OverlayRuns.StoppedThenFolder` | src/main/webtree.ts:199-220 | A push that stops after writing `/x`, a push without it, a push of a folder `/x` with a file: the third fails. |
| `Overlay.WebTree.Pull` | src/main/webtree.ts:144-188 | A pull merges base, whiteouts and stored entries as specified. |
| `Overlay.PushThenPull` | src/main/webtree.ts:144-231 | After a push, a pull gives a tree, and it is the pushed one exactly when every unchanged entry below a deleted path is deleted too. |
| `Overlay.ParentClosedRestorable` | src/main/webtree.ts:190-231 | Every parent-closed tree meets that condition. |
| `Overlay.LastRestored` | src/main/webtree.ts:144-231 | A parent-closed tree that was pushed is pulled back: same paths, kinds, modes, owners, targets and contents. |
| `Overlay.PushesThenPull` | src/main/webtree.ts:144-231 | After any sequence of successful pushes, a pull gives the last tree. |
| `Overlay.FailedPushKeeps` | src/main/webtree.ts:190-220 | After a push that stopped, a pull still gives a tree, and it is the one from before exactly when each file already written whose path the manifest names had these bytes. |
| `Overlay.PushAndPull` | src/main/webtree.ts:144-231 | The same over a run: push, and pull whatever the push answers. |
| `Overlay.OverwrittenByFailedPush` | src/main/webtree.ts:190-220 | The manifest names `/a`; a push of other bytes for `/a` stops at `/b`, whose bytes are not at hand, and the pull gives another tree than before. |
| `Overlay.UnclosedLost` | src/main/webtree.ts:159-164 | A tree with `/d/x` and without `/d` over a base with both is not restored. |
| `Overlay.FileBecomesFolder` | src/main/webtree.ts:297-315 | Replacing a stored file by a directory with a file in it makes the push fail. |
| `Overlay.FolderBecomesFile` | src/main/webtree.ts:297-315 | Replacing a stored folder by a file makes the push fail. |
| `WideWords.HighWord` | src/teto/word.ts:54-66 | The limb multiply gives exactly the high 64 bits of the 128-bit product. |
| `WideWords.NothingWraps` | src/teto/word.ts:54-66 | No value computed on the way reaches 2^64. |
| `WideWords.HighWordSigned` | src/teto/word.ts:68-73 | The signed correction gives floor(a b / 2^64). |
| `WideWords.HighWordMixed` | src/teto/word.ts:75-79 | The mixed correction gives floor(a b / 2^64). |
| `WideWords.SameAsReference` | src/vm/rv64.ts:761-775 | Multiply, divide and remainder of the kernel agree with the big-integer core on all operands. |
| `WideWords.SameAsReferenceWord` | src/vm/rv64.ts:788-798 | The same for the 32-bit word forms. |
| `WideWords.SignedRules` | src/teto/word.ts:81-104 | Zero divisor, overflow and all other cases of signed division as in section 7.2 of the RISC-V Unprivileged ISA 20191213. |
| `WideWords.UnsignedRules` | src/teto/word.ts:90-111 | Zero divisor and all other cases of unsigned division as in the same section. |
| `WideWords.DividesOnce` | src/teto/word.ts:81-111 | Quotient and remainder are determined by those rules. |
| `Arithmetic.Evaluator.ReadExpression` | src/sh/lex.ts:305-328 | Precedence climbing over tokens gives what the recursive reading gives. |
| `ArithmeticText.Tokens` | src/sh/lex.ts:86-165 | The tokens of a text. |
| `ArithmeticText.SpelledLexes` | src/sh/lex.ts:86-165 | Any spelling of a list of tokens, with whatever spaces, is read as that list. |
| `ArithmeticReading.PrintedEvaluates` | src/sh/lex.ts:181-328 | A tree printed with only the parentheses the precedence table needs evaluates, left-associatively, to its value in wrapped signed 64-bit arithmetic. |
| `ArithmeticReading.FailsExactly` | src/sh/lex.ts:233-303 | The value is an error exactly when some subterm divides by zero. |
| `ArithmeticReading.ValueInRange` | src/sh/lex.ts:178-179 | Every value is a signed 64-bit number. |
| `ArithmeticText.RoundTrip` | src/sh/lex.ts:86-337 | Any spelling of the printed tree evaluates to the value of the tree or to its error. |
| `ArithmeticText.SpacedEvaluates` | src/sh/lex.ts:86-337 | The printed tree with a space behind each token is such a spelling, so every tree has a text that evaluates to its value or error. |
| `ArithmeticText.Groups` | src/sh/lex.ts:46-71 | In `x a y b z` the operator of higher precedence groups first, and of two with the same the left one, for all pairs of operators. |
| `ArithmeticLaws.SignedWraps` | src/sh/lex.ts:178-179 | Values wrap: the signed number is the one in range that differs by a multiple of two to the 64th. |
| `ArithmeticLaws.RoundsToZero` | src/sh/lex.ts:287-299 | Division rounds towards zero: what is left is smaller than the divisor and has the sign of the dividend. |
| `ArithmeticLaws.SumLaws` | src/sh/lex.ts:278-285 | Told by their texts: sums, differences and products wrap. |
| `ArithmeticLaws.DivisionLaws` | src/sh/lex.ts:287-299 | Quotient and remainder fail only for a divisor of zero, and make up the dividend; the one quotient that does not fit wraps. |
| `ArithmeticLaws.ShiftLaws` | src/sh/lex.ts:272-276 | Shifts take the distance modulo 64, multiply by a power of two, and divide by it rounding down. |
| `ArithmeticLaws.ComparisonLaws` | src/sh/lex.ts:254-270 | All six comparisons follow from the order of the numbers. |
| `ArithmeticLaws.LogicLaws` | src/sh/lex.ts:222-243 | The logical operators are 0 and 1 and follow by De Morgan from negation. |
| `ArithmeticLaws.BitLaws` | src/sh/lex.ts:245-252 | The bitwise operators work on the two's complement bits. |
| `ArithmeticLaws.UnaryLaws` | src/sh/lex.ts:209-228 | Unary minus adds up to zero, complement to -1. |
| `ArithmeticLaws.GroupsByTable` | src/sh/lex.ts:46-71 | How each pair of operators groups, by a table of their texts. |
| `ArithmeticLaws.NumbersRead` | src/sh/lex.ts:86-137 | Every number is read back from its decimal and its hexadecimal digits. |

## Findings

- `src/fs/vfs.ts:357-371`: `rename` compares the unresolved paths. With `/d` a symbolic link to `/e`, `rename("/d/f", "/e/f")` sets the name and then deletes it, so the file is lost while the call succeeds. `Links.AliasedRename` is that input; `Links.Vfs.Rename` says when the directory then has the new name: exactly when the paths are one, or differ in directory or name.
- `src/fs/vfs.ts:357-371`: `rename` does not ask whether the new name lies in the renamed directory. `rename("/d", "/d/e/f")` succeeds and `/d`, with all it holds, is reached from nowhere (`Links.SwallowedRename`). `Links.RenamedReached` gives the exact condition: the node stays reached when the directory with its new name does not lie in or below it. `LinkPaths.RenamePath` tells both by paths: the renamed tree is lost exactly when the new path is the old one or lies below it.
- `src/main/webtree.ts:199-220`: changed files are written before stale data is removed, and a folder is removed only when it is empty and has the name of stale data, so the folders made for files mostly stay. A push that replaces a stored file by a directory holding a file, or a stored folder by a file, therefore throws, and a folder blocks a file of its name even when an earlier push had emptied it (`OverlayRuns.FolderThenFile`; a deleted file blocks nothing, `OverlayRuns.FileThenFolder`): `Overlay.FileBecomesFolder` and `Overlay.FolderBecomesFile` are such inputs, and `Overlay.WebTree.Push` gives the exact condition.
- `src/main/webtree.ts:190-220`: a push that throws has overwritten the files before the one that could not be stored, while the manifest still is the old one. `Overlay.OverwrittenByFailedPush` is an input after which another tree is pulled than before, and `Overlay.FailedPushKeeps` gives the exact condition for the stored tree to stay: each file already written whose path the manifest names had these bytes. What such a push wrote for the first time is named by no manifest, so no later push removes it, and it blocks a folder of its name (`OverlayRuns.StoppedThenFolder`); it stays exactly until a successful push carries it (`OverlayRuns.PushBeside`).
- `src/main/webtree.ts:159-164`: an unchanged entry below a deleted base path is hidden by the whiteout and not stored, so a tree that is not parent-closed need not come back: `Overlay.UnclosedLost` is such a tree. `Overlay.PushThenPull` gives the exact condition, and `Overlay.ParentClosedRestorable` shows that parent-closed trees meet it. Dumps are parent-closed (`TreeReturn.DumpParentsFirst`), so this concerns trees from elsewhere.
- `src/teto/thx.ts:294, 384`: the header and section objects may end with a comma. `ThxStrict.CommaAllowed` is such a text, and `ThxStrict.SpelledStrict` gives the exact condition: an accepted object is a JSON object when no comma stands before its bracket.
- `src/teto/vfs.ts:231-240`: the parts `.` and `..` are taken before it is asked whether the node is a directory, so `file/.` resolves to the file. `VfsNaming.BelowFile` gives the exact condition: behind a node that is no directory `.` is passed over and any name is refused; `VfsLookup.FileAbove` shows that `..` leads to the directory of one of the names of the file.

## Left out

- Kernel.Execute: the calls are given as values; decoding registers into system calls, file mappings, `msync`, descriptors, credentials and the instructions themselves are not modelled.
- GuestMemory.GuestMemory.GuestPage: runs of one process do not interleave inside the call, so the recheck after taking the memory lock is not modelled; a contended memory lock is a nondeterministic failure.
- PageTables.Hash: page numbers are below 2^32, where folding in the upper half adds nothing.
- Processes.Process.AnonymousMap: big integers are unbounded; for a top below 16 MiB the search limit is negative here and wraps in generated code.
- Flags and alignment are written with division and remainder where the source uses bit operations.
- Floating point: registers, loads, stores and conversions.
- Thx.LoadThx: which of the errors of the text is answered first is not stated; the image byte counters are not modelled.
- ThxText.ReadObject: the header and the section objects are read by one loop here and by two alike in the source.
- InitialStacks.StackAux: the pairs are stored in a loop; checks that cannot fail after the first pass are not repeated.
- Json.SkipGroup: arrays and objects share one loop here.
- VfsLoading.Vfs.Load: the three tables and the data arena are arrays of their own, with offsets instead of addresses; default working directories of processes and the dirty flag are not modelled.
- VfsResolving.Search: only the search permission is asked for.
- VfsHost.Serialize: paths and names are bytes; the host's comparison of strings is a ranking of paths that the caller gives, and acceptance is stated of the sorted list. Numbers that are no integers, and files whose data is missing, do not occur.
- VfsHost.MakeTree: a payload is given with its entry; unused bytes of a record are zero.
- Scheduler.RoundRobin: batches that name their hart (`tetoRunRv64Batch`) and setting a hart up again are not steps of the model; fairness of the host's threads is not assumed, so the bound counts picks.
- Scheduler.StepSound: atomics are sequentially consistent; an instruction is one step with an arbitrary outcome.
- Links.Vfs.Make: operations take a directory and a name; resolving paths, permissions, times, reading and writing file data are not modelled.
- HostTrees.Dump: a path is the list of its names, so joining and splitting at slashes is not modelled, and neither are names that are empty or hold a slash; the collation of names is a ranking that the caller gives. A dump also stores the checksum it computes, which nothing here depends on.
- TreeLoading.HostFiles.Load: an entry that carries both bytes and a source does not occur.
- Overlay.WebTree.Push: ids, times, the order in which entries are listed and the file system below the overlay are not modelled; paths are canonical, and checksums of different contents of one size are assumed to differ where the tree is to come back.
- SparseMemory.Mem64.Load: the signed readings are not modelled; a page is a value in a map that is replaced when it changes.
- HostMemory.Write: that a page which is not there could not be made (a full table, no frame, or a contended lock) is said at `GuestMemory.GuestMemory.GuestPage`; numbers over the hashed table are bytes read and written, and are not modelled again.
- WideWords.SameAsReference: the registers and the other operations of the two cores are not modelled.
- ArithmeticText.Evaluate: variables are a function from names to numbers; reading a variable's text as a number is not modelled.
- The editor, the shell's other expansions, command applications, sockets, terminals, clocks, network, and the cores other than the two compared here.
