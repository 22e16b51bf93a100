# Verified models of a Linux kernel's allocators, caches and file layouts

This project models the parts of the repository's kernel sources that carry real algorithms and
protocols, and proves what they are for.

| file | models |
|---|---|
| `Common.dfy` | options, results, page arithmetic, `find_next_zero_bit` |
| `FdModel.dfy`, `FdFiles.dfy` | the file descriptor table: two-level bitmap, `next_fd` hint, growth, fork, exec |
| `FdProtocol.dfy` | growing the table while other threads install, close and duplicate descriptors |
| `BootModel.dfy`, `BootNode.dfy`, `BootList.dfy` | the boot memory allocator: one node in place, then the list of nodes |
| `BootRuns.dfy` | every run of registering RAM, allocating and freeing |
| `ReleaseScan.dfy`, `BuddySplit.dfy` | handing boot memory over to the buddy system, by words or by powers of two |
| `ParallelLookup.dfy` | parallel directory lookups guarded by `i_dir_seq` |
| `TreeModel.dfy`, `DentryTree.dfy` | the dentry forest with its reference counts, rename and splice |
| `DentryKill.dfy` | who frees a dentry: `dput`, `__dentry_kill` and the shrinkers |
| `InodeCache.dfy` | the life of an inode between hash, LRU and references |
| `PathModel.dfy`, `PathWalk.dfy`, `PathLaws.dfy` | the meaning of a path, the stack-based walk, and the laws both obey |
| `ExecArgs.dfy` | argument and environment strings from `execve` to the new program |
| `FileNote.dfy` | the NT_FILE note of a core dump |
| `CoreModel.dfy`, `CoreDump.dfy` | the layout of a core file and the dump that follows it |

Code that updates memory in place is modelled by classes and methods with loops, proved against
functions on values.  Concurrent code is modelled by state machines: a state, a guard and an effect
for each atomic step (one section under a lock, or one lock-free access), any number of threads, and
sequential consistency.  The theorems about those speak of every run.

Four promises do not hold as they stand, and each has its exact condition.
`alloc_bootmem_bdata` on a given node ignores a limit below one page; allocation through the list does
not (`BootRuns.LimitExactly`, `BootRuns.LimitIgnored`, `BootRuns.AllocInRun`).
`free_bootmem` of live bytes that contain no whole page reaches a BUG() unless some node begins at or
before PFN_DOWN of their end and ends behind PFN_UP of their start; inside the last page of the last
node none does (`BootRuns.FreeExactly`, `BootRuns.LastPageHitsBug`, `BootRuns.FreeHitsBug`).
The word-wise release scan overlooks pages of some unaligned nodes (`ReleaseScan.CompleteExactly`,
`ReleaseScan.OverlookedPage`).
A thread's notes are stored past the end of their array, and the planned size of the notes is too
large, unless the register sets with a note type come first (`CoreModel.StoresFitExactly`,
`CoreModel.PlanExactly`, `CoreModel.StoredPastTheEnd`).

## Model

| member | source | states |
|---|---|---|
| FdModel.NextFree | new/fs/file.c:463-478 | the reference for allocation: the least descriptor from `start` on that is not open, with everything before it open |
| FdModel.GrowKeeps | new/fs/file.c:71-83 | growing keeps the table invariants and changes the next free descriptor for no start |
| FdModel.SetOpenKeeps | new/fs/file.c:239-245 | marking a descriptor open keeps "a full bit is set iff its word is full" and "an installed slot is open" |
| FdModel.ClearOpenKeeps | new/fs/file.c:247-251 | so does clearing one |
| FdModel.AllocKeeps | new/fs/file.c:480-562 | allocation keeps all three invariants, whatever its outcome |
| FdModel.Dup2Keeps | new/fs/file.c:886-945 | so does dup2, including growth and the busy slot |
| FdModel.ExecKeeps | new/fs/file.c:719-753 | so does closing on exec, up to any descriptor |
| FdModel.ExecBelowStep | new/fs/file.c:719-753 | closing word by word is closing descriptor by descriptor |
| FdModel.CopiedFullExact | new/fs/file.c:49-65 | copying a whole-word prefix of both bitmap levels and clearing the rest leaves the full bits exact |
| FdModel.ApplyKeeps | new/fs/file.c:480-588 | every table operation keeps the invariants |
| FdModel.HistoryInv | new/fs/file.c:480-588 | from any table that satisfies them they hold after every history of allocations, installs, dup2s, closes, releases and growth |
| FdModel.AllocAfterHistory | new/fs/file.c:480-562 | after any history `__alloc_fd` hands out the least descriptor >= start that is not open, empty and with the close-on-exec flag asked for, and changes no other; with memory and a steady sysctl_nr_open it succeeds if any descriptor in range and below the limit is not open, inside the table or beyond it |
| FdModel.TableSizeExact | new/fs/file.c:85-140 | a new table holds the descriptor unless that is at or above sysctl_nr_open in whole words, is never larger, and else at most doubles |
| FdModel.ExpandExactly | new/fs/file.c:148-226 | ENOMEM, EMFILE or success, each iff its condition on the limits; growing changes no descriptor |
| FdModel.AllocExactly | new/fs/file.c:480-562 | ENOMEM, EMFILE or the least free descriptor, each iff its condition on the limits; nothing else changes |
| FdModel.Dup2Exactly | new/fs/file.c:886-967 | which file is displaced, what the slot becomes, and each error iff its condition |
| FdModel.CloseExactly | new/fs/file.c:658-682 | EBADF iff nothing is installed, otherwise the file is returned and only that descriptor is freed |
| FdModel.ReplaceExactly | new/fs/file.c:947-967 | each error iff its condition; otherwise the file displaced and the one slot that changes |
| FdModel.ExecExactly | new/fs/file.c:719-753 | a descriptor is closed iff it was flagged and installed; no flag is left; nothing else changes |
| FdModel.PutInstallExactly | new/fs/file.c:575-646 | releasing or filling a descriptor changes that descriptor only |
| FdFiles.Fdtable.FindNextFd | new/fs/file.c:463-478 | the two-level search finds the same descriptor as the simple scan |
| FdFiles.Fdtable.CopyFdBitmaps | new/fs/file.c:49-65 | the three bitmaps are the source's prefix followed by zeroes |
| FdFiles.Fdtable.CountOpenFiles | new/fs/file.c:253-265 | one past the last word with an open bit, in bits |
| FdFiles.Fdtable.SetOpenFd | new/fs/file.c:239-245 | sets the open bit and, exactly when its word becomes full, the full bit |
| FdFiles.Fdtable.ClearOpenFd | new/fs/file.c:247-251 | clears the open bit and the full bit of its word |
| FdFiles.FilesStruct.ExpandFiles | new/fs/file.c:148-226 | the limits, the errors and the grown table of `expand_files` |
| FdFiles.FilesStruct.SearchFrom | new/fs/file.c:498-512 | starting at the hint loses nothing: the result is the least free descriptor from `start` |
| FdFiles.FilesStruct.AllocFd | new/fs/file.c:480-562 | the retry loop refines the one-step specification, errors included |
| FdFiles.FilesStruct.PutUnusedFd | new/fs/file.c:575-588 | releases the descriptor and lowers the hint |
| FdFiles.FilesStruct.FdInstall | new/fs/file.c:620-646 | stores the file in its reserved slot and changes nothing else |
| FdFiles.FilesStruct.CloseFd | new/fs/file.c:658-682 | empties the slot and releases the descriptor, or EBADF |
| FdFiles.FilesStruct.DoDup2 | new/fs/file.c:886-945 | EBUSY for a reserved slot, otherwise the slot holds the file and the old file is returned |
| FdFiles.FilesStruct.ReplaceFd | new/fs/file.c:947-967 | without a file a close; EBADF at RLIMIT_NOFILE; otherwise dup2 with growth up to sysctl_nr_open and its errors |
| FdFiles.FilesStruct.DoCloseOnExec | new/fs/file.c:719-753 | the word-wise loop that drops the lock closes exactly the flagged descriptors |
| FdFiles.FilesStruct.DupFd | new/fs/file.c:272-367 | the child's open set is exactly the parent's installed descriptors, same files, one reference each, same close-on-exec bits in the copied prefix, invariants intact |
| FdProtocol.EventKeeps | new/fs/file.c:148-226 | every atomic step of growers, installers, closers and duplicators keeps the protocol invariant |
| FdProtocol.StoreLands | new/fs/file.c:620-646 | a store of `__fd_install` always lands in the current table, in an empty reserved slot: its BUG_ON cannot fire |
| FdProtocol.PublishIsGrow | new/fs/file.c:148-181 | the slot-by-slot copy that other threads interleave with publishes exactly the grown table |
| FdProtocol.NothingLost | new/fs/file.c:148-226 | in every run the current table holds exactly the files installed and not removed, at most one grower is in flight, no BUG_ON fired |
| BootModel.AlignIdx | bootmem.c:514-525 | the least index from `idx` on whose page frame is a multiple of the step |
| BootModel.AlignOff | bootmem.c:527-535 | the same for byte offsets |
| BootModel.FirstFit | bootmem.c:596-612 | the reference: the first aligned run of clear bits, or none at all |
| BootModel.ChosenComplete | bootmem.c:547-643 | the hint and the fallback pass miss nothing: no choice iff no aligned clear run from the start index to the limit |
| BootModel.ChosenInFrames | bootmem.c:558-643 | in page frames and bytes: nothing is chosen iff no clear run with an aligned address lies between the goal, if that is inside the node and below the limit, and the limit |
| BootModel.StartIdxLeast | bootmem.c:576-584 | without a goal the search starts before every aligned index |
| BootModel.RunAddressAligned | bootmem.c:576-583 | page steps give addresses aligned as asked |
| BootNode.BootmemNode.constructor | bootmem.c:101-123 | a new node has every page reserved |
| BootNode.BootmemNode.Free | bootmem.c:321-341 | its BUG() fires iff a page of the range is not reserved; otherwise it clears exactly the range and lowers the hint |
| BootNode.BootmemNode.Reserve | bootmem.c:343-368 | EBUSY iff exclusive and some bit was set, and then the bitmap is what it was |
| BootNode.BootmemNode.FindBlock | bootmem.c:600-612 | the skipping loops find the first fit |
| BootNode.BootmemNode.AllocBdata | bootmem.c:547-643 | returns the address of the chosen run, merged into the last page where possible, and marks exactly its pages |
| BootNode.BootmemNode.Take | bootmem.c:614-640 | the tail merge and the exclusive reserve whose BUG() cannot be reached |
| BootList.LinkBootmem | bootmem.c:80-92 | inserting keeps the list sorted and loses no node |
| BootList.MarkFree | bootmem.c:394-425 | for any start and end: a BUG() is reached iff no run of adjoining nodes covers the range with every page reserved; otherwise exactly the range is cleared |
| BootList.ReserveRange | bootmem.c:394-425 | for every range: EBUSY iff exclusive and a page that adjoining nodes lead to from the start is reserved, and then every bitmap is bit for bit what it was; otherwise a BUG() iff no adjoining nodes cover the range, and 0 with the whole range set |
| BootList.Rollback | bootmem.c:394-425 | the rollback finds every bit set that it clears and restores every bitmap |
| BootList.AllocCore | bootmem.c:655-686 | the first node with room is used; None means no node has room |
| BootList.BreakIsSound | bootmem.c:655-686 | stopping at the first node above the limit overlooks none, because the list is sorted |
| BootList.AllocNodeNopanic | bootmem.c:774-802 | the given node, then the list, then both without the goal, which is given up only if nothing meets it; None iff no node has an aligned clear run below the limit in force and the given node has none by its own reading of the limit, for which less than a page is no limit |
| BootList.AllocNopanic | bootmem.c:688-707 | None iff no node has an aligned clear run below the limit; the goal is given up only if no node can meet it |
| BootList.HasRoomMeans | bootmem.c:655-686 | a node has room iff it reaches above the goal, begins below the limit and has an aligned clear run between them, in page frames |
| BootRuns.AllocFresh | bootmem.c:547-643 | an allocation is byte-disjoint from every live one, aligned, inside its node, below a limit of at least a page, below any limit if found through the list, and at or above a goal that the node and the limit can meet, or in the free tail of the page right before it |
| BootRuns.AllocMarksExactly | bootmem.c:614-640 | exactly the pages that hold a byte of the area are reserved with it |
| BootRuns.NextContinues | bootmem.c:614-623 | an area right behind the last one's page begins less than its alignment behind the last one's end |
| BootRuns.AllocKeeps | bootmem.c:547-643 | allocation keeps the system invariant, tail merges included |
| BootRuns.RegisterFindsReserved | bootmem.c:321-341 | RAM registered for the first time is still reserved, so `__free` reaches no BUG |
| BootRuns.RegisterKeeps | bootmem.c:101-132 | making RAM free keeps the system invariant |
| BootRuns.FreeKeeps | bootmem.c:459-469 | so does freeing bytes that were handed out, wherever that reaches no BUG |
| BootRuns.FreeFindsReserved | bootmem.c:321-341 | every page such a free clears is reserved, so the BUG in `__free` cannot be reached |
| BootRuns.MarkFreeClears | bootmem.c:394-425 | what the loop over the node list leaves is the clearing the runs speak of, for every free that reaches no BUG |
| BootRuns.ReserveSets | bootmem.c:394-425 | after a reserve that returns 0 a page is reserved iff it was or its frame is in the range |
| BootRuns.TakenMeans | bootmem.c:394-425 | EBUSY by page frames: some frame of the range, on a node that adjoining nodes lead to, is reserved |
| BootRuns.FreeExactly | bootmem.c:394-469 | freeing live bytes reaches no BUG iff, with a whole page in between, no empty node lies between the nodes of the first and the last page, and otherwise a node begins at or before the frame the range ends in and ends behind the first frame from its start on |
| BootRuns.WholeAreaFreeable | bootmem.c:459-469 | freeing a whole allocation always does |
| BootRuns.LastPageHitsBug | bootmem.c:394-425 | freeing live bytes inside the last page of the last node never does |
| BootRuns.FreeHitsBug | bootmem.c:394-425 | a run that reaches such a free |
| BootRuns.RunInv | bootmem.c:547-643 | in every run live allocations are disjoint and lie in registered, reserved pages |
| BootRuns.AllocInRun | bootmem.c:547-643 | in every run a new allocation disturbs no live one and is placed as promised, limit and goal included |
| BootRuns.LimitExactly | bootmem.c:558-574 | `alloc_bootmem_bdata` honours a limit on every node iff it is zero or at least a page |
| BootRuns.LimitIgnored | bootmem.c:558-574 | a node and a limit below a page for which it is not |
| BuddySplit.TilingIsExact | nobootmem.c:130-159 | a tiling covers every page of the range once and none outside, and its page count is the length |
| BuddySplit.GreedyLargest | nobootmem.c:130-159 | each step takes the largest naturally aligned block that fits |
| BuddySplit.GreedyOptimal | nobootmem.c:130-159 | the blocks tile the range, and no tiling uses fewer |
| BuddySplit.BestOrder | nobootmem.c:134-151 | the order chosen by `__ffs` and shrunk by the inner loop is the largest that fits |
| BuddySplit.FreePagesMemory | nobootmem.c:130-159 | the loop releases exactly that tiling |
| BuddySplit.FreeMemoryCore | nobootmem.c:161-174 | the count reported is the number of pages released, nothing outside the range |
| ReleaseScan.VecExact | bootmem.c:203-230 | a shifted map word shows exactly the pages still to release, except the overlooked tail |
| ReleaseScan.FreeAll | bootmem.c:188-249 | releases each page it should exactly once and no other, and the count agrees |
| ReleaseScan.CompleteExactly | bootmem.c:188-249 | every clear page of every bitmap is released iff the node is word-aligned, or too short, or its end offset in the word is not past its start offset |
| ReleaseScan.OverlookedPage | bootmem.c:203-222 | for every bitmap of frames 1 to 65 whose last page is clear, that page is not released |
| ParallelLookup.CompareOkKeeps | new/fs/dcache.c:2486-2497 | an unchanged even sequence number under the chain lock rules out any hashed or half-added dentry of the name |
| ParallelLookup.InsertKeeps | new/fs/dcache.c:2498-2549 | inserting an in-lookup dentry keeps names exclusive |
| ParallelLookup.ListDelKeeps | new/fs/dcache.c:2553-2567 | leaving the in-lookup list keeps the invariant, because a checked search holds the chain lock |
| ParallelLookup.RehashKeeps | new/fs/dcache.c:2570-2594 | hashing keeps it, because the sequence number is odd meanwhile |
| ParallelLookup.SpliceKeeps | new/fs/dcache.c:2763-2800 | so does hashing an alias, unhashed before, in place of the in-lookup dentry |
| ParallelLookup.EventKeeps | new/fs/dcache.c:2413-2594 | every step of every thread keeps the invariant |
| ParallelLookup.OneDentryPerName | new/fs/dcache.c:2413-2594 | in every interleaving at most one dentry per directory and name is in lookup or hashed |
| ParallelLookup.InsertIsFirst | new/fs/dcache.c:2443-2549 | a search that inserts its dentry is the first: no other exists hashed, in lookup or in between |
| ParallelLookup.LookupsAreExclusive | new/fs/dcache.c:2498-2535 | two threads never look the same name up at the same time |
| TreeModel.AncStep | new/fs/dcache.c:2858-2867 | being above is the transitive parent relation |
| TreeModel.HangKeepsForest | new/fs/dcache.c:2779-2800 | giving a dentry a parent that is not below it keeps every dentry connected to a root |
| TreeModel.HangLoses | new/fs/dcache.c:2743-2757 | giving it a parent below it never does: the BUG_ONs are needed |
| TreeModel.KidsMoved | new/fs/dcache.c:2779-2800 | how many children every dentry gains or loses by a move |
| TreeModel.MovedKeeps | new/fs/dcache.c:2733-2812 | a move keeps the forest and every count equal to references plus children |
| TreeModel.ExchangedKeeps | new/fs/dcache.c:2733-2812 | so does an exchange, with the counts untouched |
| TreeModel.MovedMeans | new/fs/dcache.c:2779-2812 | a move: the dentry has the target's parent and name and is hashed, the target stays unhashed, every other dentry keeps parent, name and hash |
| TreeModel.ExchangedMeans | new/fs/dcache.c:2779-2812 | an exchange: each has the other's parent and name, both are hashed, every other dentry keeps all three |
| TreeModel.AllocChildKeeps | new/fs/dcache.c:1700-1717 | so does `d_alloc` |
| TreeModel.KillKeeps | new/fs/dcache.c:550-595 | so does killing a childless dentry, its reference to the parent going to the killer |
| TreeModel.LastReference | new/fs/dcache.c:664-708 | a count equal to the references held means no children |
| TreeModel.Apply | new/fs/dcache.c:2733-2812 | every operation keeps the forest and the counts |
| TreeModel.ReachableForest | new/fs/dcache.c:2733-2812 | after any history every dentry reaches a root, counts are exact, and count zero means unused |
| DentryTree.TrapIsExact | new/fs/namei.c:4644-4652 | the source is the trap iff it is above the target, the target is the trap iff it is above the source |
| DentryTree.RenameReasons | new/fs/namei.c:4610-4665 | every answer of `renameat2` iff its reason: what exists, the flags, the slashes, the ancestors |
| DentryTree.Dcache.DAncestor | new/fs/dcache.c:2858-2867 | finds the child of p1 that leads to p2 iff p1 is above p2; terminates |
| DentryTree.Dcache.DMove | new/fs/dcache.c:2733-2812 | a BUG_ON fires iff one dentry is above the other, the last WARN_ON iff the old parent's count reaches zero; otherwise exactly the move or exchange: parents, names and hashes of the two as promised, of all others as before |
| DentryTree.Dcache.LockRename | new/fs/namei.c:2858-2886 | the trap is the child of one directory that leads down to the other |
| DentryTree.Dcache.Rename | new/fs/namei.c:4610-4665 | the answer is the one given by the ancestor relation; when renamed, parents, names and hashes of the two are moved or exchanged and all others stay; no BUG_ON or WARN_ON of `__d_move` fires, and the old directory stays counted |
| DentryTree.Dcache.Dput | new/fs/dcache.c:840-862 | exactly the dentries on the way up die, from the given one to the last before one that is counted twice or retained; nobody else held them, and every other reference, parent and name stays |
| DentryTree.PuttingKill | new/fs/dcache.c:635-708 | a dentry with count one that is unhashed or not retained has no children, and killing it leaves the climb of dput at its parent |
| DentryTree.Dcache.DentryKill | new/fs/dcache.c:550-595 | removes one childless dentry and returns its parent |
| DentryTree.Dcache.DSpliceAlias | new/fs/dcache.c:2930-2980 | ELOOP iff the alias is above, ESTALE iff a lock is missing, otherwise the alias has the place and the name and alone is hashed; no BUG_ON or WARN_ON, references balanced, held dentries survive |
| DentryTree.Dcache.Unalias | new/fs/dcache.c:2878-2904 | the move between directories: the old parent's count never reaches zero, references balanced, held dentries survive |
| DentryKill.KillFirstKeeps | new/fs/dcache.c:550-582 | the first section of `__dentry_kill` keeps the hand-off invariant |
| DentryKill.LastSectionKeeps | new/fs/dcache.c:584-595 | the last section hands the dentry to the shrinker or to the killer |
| DentryKill.ShrinkGiveUpKeeps | new/fs/dcache.c:1071-1090 | a shrinker frees what was parked for it and only that |
| DentryKill.ShrinkKillKeeps | new/fs/dcache.c:1091-1106 | killing from a shrink list keeps the invariant |
| DentryKill.SlowPutKeeps | new/fs/dcache.c:635-708 | so do retaining and killing in dput |
| DentryKill.LruWalkKeeps | new/fs/dcache.c:1108-1206 | so do both LRU walks |
| DentryKill.EventKeeps | new/fs/dcache.c:550-595 | so does every step of every thread |
| DentryKill.UnusedIsExact | new/fs/dcache.c:396-457 | in every run nr_dentry_unused is the number of dentries flagged DCACHE_LRU_LIST, and no D_FLAG_VERIFY warns |
| DentryKill.LastPut | new/fs/dcache.c:635-708 | in every run: a reference that is not the last only lowers the count; with the last one a retained dentry stays hashed on a list, any other is dead and unhashed |
| DentryKill.LruWalkSpares | new/fs/dcache.c:1108-1160 | the walk takes unused dentries, spares one referenced since, and lets go of one in use |
| DentryKill.FreedAtMostOnce | new/fs/dcache.c:550-595 | no dentry is freed twice, while alive, while on a list or while another thread finishes it |
| DentryKill.KilledIsFreedOnce | new/fs/dcache.c:1071-1106 | a killed dentry that no thread is finishing and no shrink list holds has been freed exactly once |
| DentryKill.FreeIsSafe | new/fs/dcache.c:584-595 | whoever frees a dentry is alone with it |
| InodeCache.CreateKeeps | new/fs/inode.c:1149-1207 | inserting by `iget_locked` keeps live keys unique |
| InodeCache.InsertLockedKeeps | new/fs/inode.c:1434-1479 | so does `insert_inode_locked` past freeing inodes |
| InodeCache.PutFinalKeeps | new/fs/inode.c:1514-1575 | the last iput keeps the invariant in all three outcomes |
| InodeCache.WrittenKeeps | new/fs/inode.c:1533-1547 | so does going from I_WILL_FREE to I_FREEING |
| InodeCache.LruWalkKeeps | new/fs/inode.c:708-766 | so does isolating from the LRU |
| InodeCache.EvictKeeps | new/fs/inode.c:537-576 | so does evict, none of its BUG_ONs firing |
| InodeCache.EventKeeps | new/fs/inode.c:1514-1575 | so does every step of every thread |
| InodeCache.OneInodePerNumber | new/fs/inode.c:1149-1207 | in every run no two hashed inodes that are not being freed share superblock and number |
| InodeCache.UnusedIsExact | new/fs/inode.c:408-435 | nr_unused is the length of the LRU |
| InodeCache.LastPut | new/fs/inode.c:1514-1550 | in every run: the last iput marks a dropped inode for freeing, keeps another alive and hashed on the LRU unless dirty, or writes it out first when the superblock goes away |
| InodeCache.LruWalkSpares | new/fs/inode.c:708-766 | an inode is marked for freeing iff it is idle, clean, not referenced since and has no pages |
| InodeCache.FreeingIsForever | new/fs/inode.c:1271-1287 | after I_FREEING an inode never gets a reference nor returns to the LRU |
| InodeCache.EvictedAtMostOnce | new/fs/inode.c:537-576 | an inode is evicted at most once, and then unhashed, unlisted and unreferenced |
| InodeCache.FreedIsEvictedOnce | new/fs/inode.c:537-576 | an inode marked for freeing that nobody is working on has been evicted exactly once |
| InodeCache.EvictionIsExclusive | new/fs/inode.c:1514-1550 | two threads never get rid of the same inode |
| PathModel.WalkUses | new/fs/namei.c:1718-1725 | resolution only uses links up |
| PathModel.LastComponentEnd | new/fs/namei.c:2267-2274 | the last component is followed by a character iff the path ends in a slash |
| PathWalk.WalkUnfolds | new/fs/namei.c:1789-1826 | one component of the recursive definition is one step of `walk_component` |
| PathWalk.RemainingIs | new/fs/namei.c:2112-2137 | the rest of the string, or the suspended string under it, holds what remains |
| PathWalk.NameiData.AllocStack | new/fs/namei.c:535-581 | the larger stack keeps the slots and has room below MAXSYMLINKS |
| PathWalk.NameiData.PickLink | new/fs/namei.c:1718-1758 | ELOOP once forty links have been followed, otherwise a new slot inside the stack |
| PathWalk.NameiData.StepInto | new/fs/namei.c:1768-1787 | follow, enter or fail, with the finished link popped |
| PathWalk.NameiData.WalkComponent | new/fs/namei.c:1789-1826 | the step the tree prescribes |
| PathWalk.NameiData.GetLink | new/fs/namei.c:1048-1098 | the body without leading slashes, from the root iff it had any |
| PathWalk.NameiData.Advance | new/fs/namei.c:2079-2168 | one turn of the loop keeps the meaning of what remains and makes progress |
| PathWalk.NameiData.LinkPathWalk | new/fs/namei.c:2068-2169 | parent, last component or error are those of the recursive definition; terminates; the depth stays within the stack |
| PathWalk.NameiData.LookupLast | new/fs/namei.c:2267-2274 | the last step, with a trailing slash asking for a directory |
| PathWalk.NameiData.TrailingSymlink | new/fs/namei.c:2255-2265 | the body of the final link |
| PathWalk.NameiData.LookupTurn | new/fs/namei.c:2317-2320 | one turn of the outer loop gives the answer or goes on with the final link, the meaning unchanged |
| PathWalk.PathLookupat | new/fs/namei.c:2306-2339 | for every tree and path the walk gives what recursive splicing of link bodies gives, from the root or the directory |
| PathLaws.CompsConcat | new/fs/namei.c:2068-2137 | a slash separates the components before it from those behind it |
| PathLaws.SplitJoined | new/fs/namei.c:2068-2137 | splitting gives back the names that were joined |
| PathLaws.AbsoluteFromAnywhere | new/fs/namei.c:2206-2208 | an absolute path means the same from every directory |
| PathLaws.PlainPath | new/fs/namei.c:2306-2339 | a path that meets no link leads along the entries and parents to its node, from the root iff absolute, or fails with ENOENT or ENOTDIR where it breaks off |
| PathLaws.PathPrefix | new/fs/namei.c:2068-2169 | a path that begins with a way to a directory means what its rest means there |
| PathLaws.LinkReplaced | new/fs/namei.c:1718-1758 | a path through a link is the path with the link's name replaced by its body, one link used up; ELOOP with none left |
| PathLaws.FinalLink | new/fs/namei.c:2255-2274 | a final link is followed if asked, and else found itself |
| PathLaws.FoundIsDirectory | new/fs/namei.c:2322-2329 | what is found exists; it is a directory if one is asked for or the path ends in a slash, and no link if links are followed |
| ExecArgs.StoreAt | new/fs/exec.c:536-556 | storing into a page is storing at addresses |
| ExecArgs.Binprm.CopyBackwards | new/fs/exec.c:516-557 | the page-chunked backward copy of a string is a flat copy; it fails iff a page cannot be had |
| ExecArgs.Binprm.CopyStrings | new/fs/exec.c:481-571 | all strings in order, flat; fails iff they do not fit; never below argmin |
| ExecArgs.Binprm.PrepareArgPages | new/fs/exec.c:432-474 | argmin leaves exactly the limit minus the pointers |
| ExecArgs.FitsInNumbers | new/fs/exec.c:432-474 | the limits of the copies in numbers |
| ExecArgs.Binprm.CopyAll | new/fs/exec.c:1814-1828 | the three copies are one flat copy of arguments, environment and file name, within the limit |
| ExecArgs.Binprm.ShiftStack | new/fs/exec.c:711-752 | every page moves down by the same number of pages |
| ExecArgs.Binprm.RemoveArgZero | new/fs/exec.c:1576-1608 | goes past the first NUL, page by page; EFAULT iff it runs into a missing page |
| ExecArgs.RemovedIs | new/fs/exec.c:1576-1608 | that drops exactly the first argument |
| ExecArgs.PutPointers | new/fs/binfmt_elf.c:319-330 | the pointer loop computes the string addresses |
| ExecArgs.WalkFinds | new/fs/binfmt_elf.c:319-347 | the forward walk finds exactly the strings of the flat copy, in order |
| ExecArgs.Execve | new/fs/exec.c:1795-1828 | from caller to new program: every argument and environment string is under its pointer, in order, the file name behind them; success iff strings and pointers take at most 128 KiB, or at most 6 MiB and a quarter of the stack limit, each string is below 128 KiB and the pages can be had |
| FileNote.RoundTrip | new/fs/binfmt_elf.c:1699-1709 | decoding an encoded note gives back the mappings |
| FileNote.FilesExactly | new/fs/binfmt_elf.c:1728-1765 | the mappings are those of the areas with a named file, each with its own range, offset and name, in order |
| FileNote.FilePathAt | new/fs/binfmt_elf.c:1742-1751 | the name at the end of the room, or ENAMETOOLONG iff it does not fit |
| FileNote.AddMapping | new/fs/binfmt_elf.c:1742-1765 | one more range and one more name, inside the buffer |
| FileNote.Finish | new/fs/binfmt_elf.c:1767-1784 | header stored and names moved down: the buffer begins with the encoded note |
| FileNote.TryFill | new/fs/binfmt_elf.c:1728-1784 | one attempt gives the encoded note, or the names do not fit |
| FileNote.FillFilesNote | new/fs/binfmt_elf.c:1710-1785 | the note is the encoding of the named file mappings; ENOMEM iff there is no vma; success iff there is a vma, not too many, and one of the sizes tried holds ranges and names; the retry loop ends |
| FileNote.NoteRoundTrip | new/fs/binfmt_elf.c:1699-1785 | so it decodes to exactly those mappings, in order |
| CoreModel.StoresFitExactly | new/fs/binfmt_elf.c:1856-1886 | no note of a thread is stored past its array, whatever is read, iff the register sets with a note type come first |
| CoreModel.PlanExactly | new/fs/binfmt_elf.c:1914-1983 | the planned note size is the size written, for every process, iff they do |
| CoreModel.PlanIffReads | new/fs/binfmt_elf.c:1856-1917 | for one process: iff no register set at or above thread_notes was read |
| CoreModel.StoredPastTheEnd | new/fs/binfmt_elf.c:1940-1942 | three sets, the second without a note type: two slots are allocated and index 2 is stored |
| CoreModel.FilledExactly | new/fs/binfmt_elf.c:1993-2025 | the filled slots give their notes in order, and nothing else does |
| CoreModel.AllNotesWritten | new/fs/binfmt_elf.c:1993-2025 | unless stored past the end, every note read for a thread and every note of the process is written exactly once |
| CoreModel.NotesAreReadable | new/fs/binfmt_elf.c:1539-1549 | from the offset in the PT_NOTE header a reader finds head, name and contents of one note after the other, padded to four bytes, up to the size it announces |
| CoreModel.PlanOrdered | new/fs/binfmt_elf.c:2354-2503 | the pieces of a dump follow each other without overlap |
| CoreModel.PlanIsHonest | new/fs/binfmt_elf.c:2381-2503 | every page, note and section header is where p_offset and e_shoff say, within p_filesz |
| CoreModel.PlanIsComplete | new/fs/binfmt_elf.c:2434-2494 | each area has exactly one program header, which announces what is dumped of the area from a page boundary on |
| CoreModel.PageExactlyOnce | new/fs/binfmt_elf.c:2472-2494 | of every announced page the plan has exactly one piece, with contents iff the page is present |
| CoreModel.SegsRecovered | new/fs/binfmt_elf.c:2295-2309 | e_phnum, or sh_info at PN_XNUM, gives the number of segments |
| CoreDump.WalkIsComplete | new/fs/binfmt_elf.c:2269-2293 | `first_vma` and `next_vma` visit every area once, the gate area last |
| CoreDump.Coredump.WriteNote | new/fs/binfmt_elf.c:1539-1549 | writes exactly notesize bytes from an aligned position |
| CoreDump.Coredump.WriteNoteInfo | new/fs/binfmt_elf.c:1993-2025 | writes the notes in order, from their planned positions |
| CoreDump.Coredump.WritePhdrs | new/fs/binfmt_elf.c:2434-2456 | each program header carries the offset planned for its area |
| CoreDump.Coredump.WritePages | new/fs/binfmt_elf.c:2472-2494 | the pages of an area from its planned offset on, contents for those present and holes for the others |
| CoreDump.Coredump.WriteAreas | new/fs/binfmt_elf.c:2472-2494 | the pages of all areas, ending at e_shoff |
| CoreDump.FillThread | new/fs/binfmt_elf.c:1828-1887 | overruns iff a set at or above the array's length was read; otherwise the array holds what was read and the total is its size |
| CoreDump.FillNoteInfo | new/fs/binfmt_elf.c:1936-1983 | the same for all threads, and the planned size with the process notes |
| CoreDump.SizePass | new/fs/binfmt_elf.c:2405-2415 | the first pass records each area's size and their sum |
| CoreDump.Coredump.ElfCoreDump | new/fs/binfmt_elf.c:2318-2503 | unless the notes overrun, which register sets in order rule out, what is emitted is a beginning of the plan, piece by piece at the planned positions, and the whole plan if the dump completes; if no write or seek fails it completes iff there is an area and the bytes the plan writes are within the core limit; a complete dump has every announced page exactly once, with contents iff it is present |

## Left out

- Unsigned wrap-around, wrap of sequence counters, memory barriers and per-cpu counters: integers are unbounded, steps are sequentially consistent, counters are single.
- RCU: grace periods are modelled where the fd table relies on them; the delayed release of dentry and inode memory is not.
- FdFiles.FilesStruct.ExpandFiles: runs without other threads; dropping the lock, the wait for another grower and the retry are modelled in FdProtocol.
- FdFiles.FilesStruct.AllocFd: runs without other threads, so one retry after growing is enough.
- FdFiles.FilesStruct.FdInstall: the store alone; the choice between the lock-free and the locked path and the BUG_ON are in FdProtocol.
- FdFiles.FilesStruct.DupFd: the parent does not change while its lock is dropped to allocate the child's table, so the sizing loop runs once.
- FdFiles.FilesStruct.DoCloseOnExec: the lock drop around filp_close is modelled as a step with no other thread in between.
- FdModel.AllocKeeps: bit words are modelled bit by bit; the word operations of the bitmap library are not.
- BootNode.BootmemNode.Free: the debugging output and the kmemleak calls around it are not modelled.
- BootList.MarkFree: an end before the node that holds the start makes the index wrap around and `__free` run on past the range; that is counted as a BUG.
- ReleaseScan.FreeAll: releasing the pages of the bitmap itself and clearing its pointer are not modelled.
- BuddySplit.FreePagesMemory: page frame 0, for which `__ffs` is undefined, is excluded.
- ParallelLookup.EventKeeps: one lock-free hash walk is a begin, an end and what it must see; chains, hash seeds and the rename seqlock (which only adds retries) are not modelled.
- DentryTree.Dcache.Rename: permission, mount, delegation and filesystem errors of vfs_rename are one arbitrary refusal; RENAME_WHITEOUT and filesystems that move dentries themselves are not modelled.
- DentryTree.Dcache.Dput: why a hashed dentry is not retained is an arbitrary set of dentries; concurrent dputs are in DentryKill.
- DentryKill.EventKeeps: nr_dentry_negative, d_genocide and the freeing of names are not modelled.
- InodeCache.EventKeeps: superblock shutdown (evict_inodes, invalidate_inodes), writeback lists and the wait queues are not modelled; a waiting finder simply retries.
- PathWalk.PathLookupat: RCU mode, mounts, automounts, permissions, magic links and LOOKUP_DOWN are not modelled; the tree does not change during the walk.
- PathWalk.NameiData.AllocStack: a failing allocation of the larger stack is not modelled.
- ExecArgs.Execve: faults while reading user strings, signals, NOMMU stacks and stack randomisation are not modelled; the stack top is above the argument limit.
- FileNote.FillFilesNote: allocation failures other than for size zero are not modelled.
- CoreDump.Coredump.ElfCoreDump: dump_emit and dump_skip are not part of this model beyond the core limit, the position and an arbitrary failure; architecture hooks for extra headers, notes and data are taken as empty; vma_dump_size is an arbitrary whole number of pages per area; note contents are not modelled.
- The thread list order in fill_note_info, the register set variant without regsets, and ELF loading.
- Character device regions, select and poll, read and write paths, ioctl, stat, sync, file locking, libfs and the init code: system call plumbing or easy arithmetic.
- memblock in nobootmem.c and the wrappers of both boot allocators.
