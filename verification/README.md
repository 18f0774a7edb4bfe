# xv6 in Dafny

A model of the hard core of this xv6 kernel and of two of its user-level programs, with proofs. The kernel
is xv6 for x86 with extensions: delayed group commit and a `sync` call, files with triple-indirect blocks,
stride scheduling beside a multi-level feedback queue, and kernel threads.

| file | what it models |
|---|---|
| `LogSpec`, `LogRuns`, `LogHistory`, `LogStuck`, `LogCommit`, `Log`, `LogCache` | the redo log: its block writes in order, crashes at any of them, recovery; every interleaving of operations, `sync` and crashes; the code itself over a global `log`, tied to that state machine; the log over the buffer cache |
| `Blocks`, `Bitmap`, `Kinds`, `FsTree`, `FsContents`, `FsLogBound`, `FileSystem`, `FsWorst`, `FsCrowded` | the free map, the three-level block tree, truncation, reading and writing as splicing of byte sequences, the number of blocks one operation needs and logs, and a disk on which it is the largest |
| `LinkSpec`, `Links`, `LinkRuns` | directories and link counts under create, link, unlink and iput |
| `Collections`, `Options`, `Ring`, `Bio` | the buffer cache: a doubly linked ring in order of use, coherent with the disk and with pinned buffers |
| `ShellSpec`, `ShellProofs`, `ShellGrammar`, `Shell` | the shell's recursive-descent parser, the grammar it decides, its printer, and the NULs it stores in the input buffer |
| `HeapSpec`, `Umalloc` | the Kernighan and Ritchie allocator of `umalloc.c` |
| `StrideSpec`, `Sched` | stride scheduling over fixed shares, the MLFQ class and the default class |
| `MlfqQueue`, `MlfqLife`, `MlfqSched` | the queue of the MLFQ class, one list cut by four headers; how long a process stays at each level; when the queue and the process table agree |
| `Pipe` | the pipe's ring buffer and its sleepers |
| `ThreadStacks` | where threads have their stacks |
| `VmSpec`, `VmCost`, `Vm` | the page pool, two-level page tables, growing, shrinking, copying and freeing address spaces |

Code that changes things in place is a class with the source's fields, or works on arrays as the source does;
each of its methods is proved against a specification on values, and the laws are lemmas about that
specification. Locks are taken as making sections atomic: a section is a step of a state machine (the log), or a
method call (the pipe, the cache). Linked structures of C pointers are arrays of indices.

## What is false of the code

Each of these is a lemma or a method with a concrete case, next to the exact condition under which the property
holds.

- `sync` sets `committing` without looking at it (`xv6-public/log.c:240-248`). With two callers on their way to commit
  at once, an operation in progress can become durable (`LogRuns.SecondCallerBreaksAtomicity`). As long as a caller
  goes on to commit only with the flag set and nobody else committing, and clears the flag only with nobody
  committing, no operation is ever half present, however many callers are inside (`LogHistory.NoOperationHalfPresent`);
  each step that does otherwise leaves the invariant at once (`LogRuns.GuardExact`).
- Under that guard begin_op's own guard can still be closed with nothing outstanding and nobody committing: a caller
  that leaves clears the flag of one that has not started (`LogStuck.LateLeaverClosesGuard`). Then a caller is on its
  way to empty the log (`LogRuns.EverySleeperAwaited`), and when nobody enters `sync` while somebody is inside it does
  not happen (`LogRuns.NoStuckWaiter`).
- `filewrite` takes each of its chunks to log at most MAXOPBLOCKS blocks (`xv6-public/file.c:126-152`,
  `xv6-public/param.h:10`). On an image of the shipped size a chunk that crosses into the triple-indirect region, with
  one block free in each of nine bitmap blocks, logs 21 (`FsWorst.FullChunk`, on the disk of `FsCrowded.Crowd`). No
  chunk logs more, and one that touches at most eight bitmap blocks stays within MAXOPBLOCKS
  (`FileSystem.FileSystem.Writei`).
- The image gives the log LOGSIZE blocks with its header (`xv6-public/mkfs.c:25`), one too few: on every disk with so
  small a log some run makes log_write panic (`LogRuns.SmallLogPanics`). With one more block log_write does not
  (`LogRuns.LogNeverOverflows`), but there are only as many buffers as a full log pins
  (`xv6-public/param.h:11-12`): some run then comes to commit with every buffer pinned, and bget has none for the
  first log block (`LogCache.FullLogStopsCommit`). With nobody else holding a buffer commit gets one exactly if the
  logged blocks are fewer than the buffers (`LogCache.BufferLeft`).
- The link count is 16 bits wide: `link` keeps counts right if and only if the directory still has a name and the
  count was below 32767 (`Links.LinkOutcome`); `create` keeps them right if and only if the directory still has a name
  and, for a new directory, its count was below 32767 (`Links.NewOutcome`, `Links.Inodes.Create`), so creating
  anything in a directory that is already unlinked breaks them (`Links.UnlinkedDirectory`). Both cases are reached
  from a new file system (`LinkRuns.CountOverflows`, `LinkRuns.DirectoryUnlinked`).
- A process of the MLFQ class that never blocks spends exactly 10 ticks at level 1 if and only if an even number of
  its slices there were cut short by a process that blocked within its own, and 11 otherwise
  (`MlfqLife.Live`, with a run of two processes in `MlfqLife.EleventhTick`).
- `wait` leaves the queue node of an exited process where it is (`xv6-public/proc.c:656-685`). If the slot is reused
  before the walk of choosebymlfq reaches the node, a process of the default class is the queue's answer
  (`MlfqSched.SlotReused`), and stays it for as long as it can run: no process of the class is chosen and the class's
  path does not advance, over any number of turns (`MlfqSched.Starves`, from the state of `MlfqSched.Starved`).
  The table and the queue stay matched exactly under the events that do none of three things: reuse a slot with a node
  left, join the class twice, delete the node of a running process (`MlfqSched.EventKeeps`).
- A writer that was killed, or whose reader is gone, and that has more bytes than the pipe holds leaves sleeping
  readers asleep, and nothing else does (`Pipe.Buffer.Write`, `Pipe.RefusedWriter`).
- A request to `malloc` within seven bytes of 2^32 wraps around to one that is too small, and no other does
  (`HeapSpec.UnitsHold`, `Umalloc.Allocator.Malloc`).
- A failing `allocuvm` leaves every mapping as it was if and only if no page of its range was mapped
  (`Vm.Kernel.Allocuvm`). In a space whose page 1 is mapped, with no page free, a call from 0 unmaps that page
  (`Vm.OccupiedRange`, on the space of `Vm.OccupiedSpace`); `growproc` passes ranges above the process's size.

## Model

| member | source | states |
|---|---|---|
| `LogSpec.RecoveredBlocks` | xv6-public/log.c:74-127 | recovery copies each logged block home, touches no other block, and leaves the log empty |
| `LogSpec.RecoverInOrder` | xv6-public/log.c:120-127 | the writes of recovery are those of install_trans and then write_head, each reading what the writes before it left |
| `LogSpec.RecoveryReadsLog` | xv6-public/log.c:74-127 | what recovery leaves at home depends only on the log and on the homes the log does not name |
| `LogSpec.CrashInRecovery` | xv6-public/log.c:74-127 | after a crash at any write of recovery, recovering again gives the same homes |
| `LogSpec.AfterCrashes` | xv6-public/log.c:74-127 | after any number of crashes inside recovery, each at any write, a completed recovery gives the homes that an undisturbed one gives |
| `LogSpec.CrashInCommit` | xv6-public/log.c:179-204 | after a crash at any write of commit, recovery leaves every home old if the header write had not happened and every logged block new if it had, all others untouched |
| `LogSpec.CommitAtomic` | xv6-public/log.c:194-204 | commit is atomic at the header write, for every cut of its writes |
| `LogSpec.CommitEffect` | xv6-public/log.c:194-204 | at the end of commit the log is empty and every home holds what was in memory |
| `LogSpec.CommitInOrder` | xv6-public/log.c:194-204 | the writes of commit are those of its four stages, each reading the disk the stages before it left |
| `LogHistory.NoOperationHalfPresent` | xv6-public/log.c:130-257 | over every run of begin_op, log_write, end_op, sync and crash steps with one committer at a time and any number of callers inside sync, recovery leaves in every home block the last of the writes that the run made up to a moment with no operation in progress, replayed from its log_write steps alone, and no older a moment than the last finished commit's |
| `LogHistory.MemoryIsLatest` | xv6-public/log.c:215-234 | over every such run bread returns for each home block the last write that was not lost to a crash, or what the disk began with |
| `LogRuns.GuardExact` | xv6-public/log.c:236-257 | from a state in which nobody has broken it, a step keeps the invariant behind crash safety if and only if it lets one committer at a time through |
| `LogRuns.LogNeverOverflows` | xv6-public/log.c:130-145 | over every run, logged blocks plus all unspent shares stay within LOGSIZE, logged numbers stay distinct, and with LOGSIZE + 1 log blocks log_write does not panic for an operation with share left |
| `LogRuns.SmallLogPanics` | xv6-public/log.c:215-220 | on every disk whose log has at most LOGSIZE blocks some run makes log_write panic for an operation with share left |
| `LogRuns.NoStuckWaiter` | xv6-public/log.c:130-176 | when nobody enters sync while somebody is inside: with nothing outstanding and nobody committing begin_op's guard is open; a sleeper of begin_op has committing set or its guard closed; a sleeper of sync has operations outstanding |
| `LogRuns.EverySleeperAwaited` | xv6-public/log.c:130-176 | over every run, with any callers inside sync: with nothing outstanding and the guard closed a caller is on its way to empty the log; a sleeper of begin_op has the flag, the closed guard or a caller that will wake it to wait for; a sleeper of sync has operations outstanding; the flag is set only while a caller is inside |
| `LogStuck.LateLeaverClosesGuard` | xv6-public/log.c:236-257 | on every disk with more than LOGSIZE log blocks a run with one committer at a time ends with nothing outstanding, nobody committing and begin_op's guard closed, another caller of sync having just entered |
| `LogRuns.WaitingDrains` | xv6-public/log.c:236-250 | while a caller of sync waits, operations outstanding never increase and each end_op decreases them |
| `LogRuns.SecondCallerBreaksAtomicity` | xv6-public/log.c:236-257 | a run with two callers on their way to commit at once after which recovery leaves half an operation |
| `LogCommit.CommitterWrites` | xv6-public/log.c:179-204 | the steps of one caller of sync pass through every prefix of the writes of commit, in order |
| `LogCommit.WholeCommit` | xv6-public/log.c:236-257 | and they end with all of them on the disk, the log empty, the flag clear and the commit recorded as finished |
| `Log.Log.WriteLog` | xv6-public/log.c:179-192 | the loop performs exactly the log's writes, in order |
| `Log.Log.WriteHead` | xv6-public/log.c:106-118 | one write of the header: the count, the entries, stale words after them |
| `Log.Log.InstallTrans` | xv6-public/log.c:74-87 | the loop performs exactly the writes to the homes, and the installed buffers are clean |
| `Log.Log.ReadHead` | xv6-public/log.c:90-101 | the entries are read back from the header block |
| `Log.Log.RecoverFromLog` | xv6-public/log.c:120-127 | the disk becomes the recovered disk, whatever write a crash follows |
| `Log.Log.Commit` | xv6-public/log.c:194-204 | the disk's homes become what was in memory, the log is empty again, and the writes made are atomic at the header |
| `Log.Log.BeginOp` | xv6-public/log.c:130-145 | one pass of the loop is the state machine's step; if it does not sleep there is room for everything the operations in progress may log, this one included |
| `Log.Log.LogWrite` | xv6-public/log.c:215-234 | panics exactly on its three conditions; else the block's contents are the new ones, also if it was logged before, every other block's are as they were, and the header names it once |
| `Log.Log.EndOp` | xv6-public/log.c:149-176 | the state machine's step: the last operation wakes the sleepers of sync and enters sync itself exactly if another operation might not fit |
| `Log.Log.Sync` | xv6-public/log.c:236-257 | the caller's own steps of the state machine: -1 exactly when there is nothing to write, sleep with the flag set exactly when operations are outstanding, else the disk holds everything that was in memory and the writes made are atomic at the header |
| `Log.Log.Woken` | xv6-public/log.c:242-254 | the same from the test of the wait loop on |
| `LogCache.MemoryIsOverlay` | xv6-public/log.c:179-192 | with no buffer in use, what bread returns is the pinned buffer if there is one, else the disk, as the log takes it; the pinned blocks are exactly the dirty ones |
| `LogCache.BufferLeft` | xv6-public/bio.c:77-92 | nobody holding a buffer, a block outside the transaction gets one exactly if the pinned blocks are fewer than the buffers |
| `LogCache.FullLogStopsCommit` | xv6-public/log.c:179-192 | on every disk with more than LOGSIZE log blocks some run, with one caller inside sync at a time, comes to commit with every buffer pinned: a cache that holds that memory exists, and in every such cache no buffer is left for the first log block |
| `LogCache.ShortLogLeavesBuffer` | xv6-public/log.c:179-192 | with at most LOGSIZE log blocks, and nobody holding a buffer, commit finds one for every log block |
| `Blocks.WordBytes` | xv6-public/fs.c:373-464 | the four little-endian bytes of a block number give the number back |
| `Blocks.SetWord` | xv6-public/fs.c:373-464 | storing an entry of an indirect block changes that entry and no other |
| `Bitmap.MarkedBit` | xv6-public/fs.c:56-96 | marking or unmarking a block's bit in its byte changes that bit and no other |
| `Bitmap.BitPlace` | xv6-public/fs.h:44-48 | the block, byte and bit where the map keeps a block's bit |
| `FsTree.LeafFirst` | xv6-public/fs.c:373-464 | bmap's digits lead to a place whose first block is the index asked for, in all four regions |
| `FsTree.LeavesDistinct` | xv6-public/fs.c:373-464 | different (inode, index) pairs never share a data block |
| `FsTree.GrowKeeps` | xv6-public/fs.c:373-464 | storing a zeroed free block at an empty place keeps the tree, every other pointer and all data |
| `FsTree.GrowExtends` | xv6-public/fs.c:373-464 | the same as a relation that composes: old pointers and data stay, new ones appear only at the places filled |
| `FsTree.NothingBelow` | xv6-public/fs.c:472-550 | a block number below an empty place is impossible |
| `FsTree.Truncated` | xv6-public/fs.c:472-550 | clearing an inode's addresses removes exactly its blocks from the tree |
| `FsTree.FreeMapUnique` | xv6-public/fs.c:56-96 | the free map is determined by the blocks in use |
| `FsContents.SpliceReadsBack` | xv6-public/fs.c:567-626 | what was spliced in is what is read back |
| `FsContents.SpliceTwice` | xv6-public/fs.c:604-620 | writing in pieces equals writing at once |
| `FsContents.StorePiece` | xv6-public/fs.c:604-620 | one block's part of a write is a splice of the file's bytes and leaves other files alone |
| `FsContents.FillFile` | xv6-public/fs.c:373-464 | allocating a block adds zero bytes after the end and changes no byte of any file |
| `FsContents.ReadPiece` | xv6-public/fs.c:580-589 | one block's part of a read is that slice of the file's bytes |
| `FsContents.RewroteTwice` | xv6-public/file.c:117-156 | consecutive chunks compose to one write |
| `FsContents.WroteResized` | xv6-public/fs.c:621-625 | setting the new size completes a write that ended past the old one |
| `FsLogBound.SameParent` | xv6-public/fs.c:373-464 | between boundaries consecutive blocks have the same indirect block |
| `FsLogBound.SpotsSize` | xv6-public/file.c:126-152 | a chunk touches at most 7 data blocks and 4 indirect blocks |
| `FsLogBound.TouchedSpots` | xv6-public/fs.c:373-464 | on a file without holes every place that filling changes is one of those |
| `FsLogBound.LogCount` | xv6-public/file.c:126-152 | the blocks logged are no more than those places, the bitmap blocks and the inode's block |
| `FsLogBound.NineSpots` | xv6-public/file.c:126-152 | at most nine of the places a chunk touches are empty: six data blocks and three indirect blocks |
| `FsLogBound.TooFew` | xv6-public/fs.c:56-78 | a write that used up every free block and left a place empty had fewer free blocks than empty places |
| `FsLogBound.Enough` | xv6-public/fs.c:56-78 | a write that ended had at least as many |
| `FsLogBound.NewPlaces` | xv6-public/fs.c:373-464 | what bmap allocates on a file without holes is at one of those |
| `FileSystem.FileSystem.ChunkCount` | xv6-public/file.c:126-152 | a chunk logs at most 21 blocks, one bitmap block for each allocation included |
| `FileSystem.FileSystem.Balloc` | xv6-public/fs.c:56-78 | the first free block becomes used, in the bytes of the map, and zeroed; none exactly when every block is used |
| `FileSystem.FileSystem.Bfree` | xv6-public/fs.c:81-96 | the bit is cleared in the bytes of the map, and panic happens exactly if it was clear already |
| `FileSystem.FileSystem.Bmap` | xv6-public/fs.c:373-464 | the block at the index, allocated with the indirect blocks it needs; conservation of blocks is kept; fails only past MAXFILE or with no block left for an empty place on the way |
| `FileSystem.FileSystem.Readi` | xv6-public/fs.c:567-591 | gives the bytes of the file in the range, cut at its end, and changes nothing |
| `FileSystem.FileSystem.Writei` | xv6-public/fs.c:596-626 | the covered bytes become the source's, all other bytes and all other files are unchanged, blocks are conserved; refused exactly out of range; a write up to a chunk panics if and only if the free blocks are fewer than the empty places it needs; everything changed or allocated on disk is in a logged block; a chunk logs at most 7 + 4 + 1 blocks and the bitmap blocks it touches, so at most MAXOPBLOCKS if those are at most 8, and at most 21 in any case |
| `FileSystem.FileSystem.WriteThenRead` | xv6-public/fs.c:567-626 | readi gives back what writei stored |
| `FileSystem.FileSystem.Itrunc` | xv6-public/fs.c:472-550 | frees precisely the inode's data and indirect blocks, never a free one, logs every block with a change and at most 1 block and the bitmap blocks it touches, for any size |
| `FileSystem.FileSystem.Filewrite` | xv6-public/file.c:117-156 | without a panic: refused if and only if the position is past the end or the write would pass the largest size, and then at the first chunk that does; else all bytes are written; in each case the file gets the bytes up to where it stopped, in order; no operation of the loop logs more than 7 + 4 + 1 blocks and the bitmap's, nor more than 21 |
| `FsWorst.FullChunk` | xv6-public/file.c:126-152 | on an image of the shipped size with nine blocks free, each in another bitmap block, a chunk written from the middle of block 16519 is not refused, does not panic, and logs exactly 21 blocks |
| `FsWorst.FreeTaken` | xv6-public/fs.c:373-464 | the nine places that such a chunk fills take all nine free blocks |
| `FsCrowded.ImageTree` | xv6-public/mkfs.c:93-103 | three files of 16520, 16520 and 6540 blocks fill the image but for those nine: every pointer leads to a block of its own, and every other data block is pointed to |
| `FsCrowded.Crowd` | xv6-public/mkfs.c:93-103 | the file system of that image is valid and meets what `FsWorst.FullChunk` needs |
| `LinkSpec.NoLinks` | xv6-public/fs.c:332-353 | a count of zero means that no entry of a linked directory names the inode |
| `LinkSpec.NamedAgrees` | xv6-public/sysfile.c:118-165 | a new name and one more link keep counts equal to names, names unique and every directory with one parent |
| `LinkSpec.MadeAgrees` | xv6-public/sysfile.c:241-284 | so does a new directory with its two entries |
| `LinkSpec.RemovedAgrees` | xv6-public/sysfile.c:184-239 | so does removing a name and one link |
| `LinkSpec.UnmadeAgrees` | xv6-public/sysfile.c:184-239 | so does removing an empty directory |
| `LinkSpec.FreedAgrees` | xv6-public/fs.c:332-353 | so does freeing an inode that nothing names |
| `Links.Inodes.Dirlookup` | xv6-public/fs.c:639-663 | the slot of the first entry with the name, or -1 exactly if there is none |
| `Links.Inodes.Dirlink` | xv6-public/fs.c:667-693 | the first free slot gets the entry; -1 exactly if the name is there |
| `Links.Inodes.Isdirempty` | xv6-public/sysfile.c:168-181 | true exactly if no slot but the first two is in use |
| `Links.Inodes.Ialloc` | xv6-public/fs.c:195-215 | the first free inode, or none exactly if all are in use |
| `Links.Inodes.Iput` | xv6-public/fs.c:332-353 | frees the inode exactly with its last reference and no links, and then no entry names it; counts stay right |
| `Links.Inodes.Link` | xv6-public/sysfile.c:118-165 | fails exactly for a directory or a name in use; else the directory has the name, in the first free slot, for the inode, which has one link more modulo 2^16, and no other slot or inode has changed; counts stay right if and only if the directory is still linked and the count was below 32767 |
| `Links.Inodes.Unlink` | xv6-public/sysfile.c:184-239 | fails exactly for ".", "..", a missing name or a directory with entries; else the name is absent, no other slot or inode has changed, and its inode has one link less, or is free exactly if that was its last and nothing refers to it; counts stay right; a directory that has lost its name holds no other name; the panics are unreachable |
| `Links.Inodes.Create` | xv6-public/sysfile.c:241-284 | opens, refuses or makes exactly as the source, in a directory with or without a name; a new inode has its one name in the first free slot, "." and ".." if it is a directory, and no other slot or inode has changed; counts stay right if and only if the directory still has a name and, for a new directory, its count has room; panics exactly if the entry found names an inode not in use, which no linked directory has; none is made only if no inode is free |
| `Links.LinkOutcome` | xv6-public/sysfile.c:139-150 | the exact condition for link: the directory is linked and the count has room |
| `Links.NewOutcome` | xv6-public/sysfile.c:258-281 | the exact condition for create, of any kind, in any directory: it is linked, and a new directory finds room in its count |
| `Links.DropOutcome` | xv6-public/sysfile.c:218-235 | unlink always keeps counts right |
| `Links.DropLinks` | xv6-public/sysfile.c:218-235 | unlink takes from the set of the inode's names the one, from its directory's the ".." of a directory gone, and from no other's any |
| `Links.LinkLinks` | xv6-public/sysfile.c:139-150 | link adds to the inode's set of names the one, and to no other's any |
| `Links.NewLinks` | xv6-public/sysfile.c:258-281 | create gives the new inode one name, the directory the ".." of a new directory, and no other any |
| `Links.UnlinkedDirectory` | xv6-public/sysfile.c:241-284 | a file, directory or device made in an unlinked directory always breaks the counts |
| `Links.FreshAgrees` | xv6-public/mkfs.c:117-128 | the counts are right on a fresh image |
| `Links.CountsAlwaysAgree` | xv6-public/sysfile.c:118-284 | over every sequence of operations in linked directories, counts equal names, names are unique, directories have one parent, and an inode that is unlinked and still there is referred to |
| `LinkRuns.NamesReached` | xv6-public/sysfile.c:118-165 | create and links alone lead from a new file system to a file with any number of names up to 32767 |
| `LinkRuns.CountOverflows` | xv6-public/sysfile.c:118-165 | with 32767 of them one more link breaks the counts |
| `LinkRuns.DirectoryUnlinked` | xv6-public/sysfile.c:184-284 | a directory made, entered and removed is reached from a new file system, and a file created in it breaks the counts |
| `Bio.RecycleKeeps` | xv6-public/bio.c:77-91 | taking an idle buffer for another block loses no data and unpins nothing |
| `Bio.UpdateKeeps` | xv6-public/bio.c:95-141 | the changes that a holder makes to a buffer keep the cache coherent |
| `Bio.Bcache.constructor` | xv6-public/bio.c:38-56 | binit leaves a ring of all buffers, coherent with the disk |
| `Bio.Bcache.Find` | xv6-public/bio.c:67-75 | the buffer of the block if there is one |
| `Bio.Bcache.Oldest` | xv6-public/bio.c:77-91 | the idle buffer nearest the back of the ring, or none exactly if none is idle |
| `Bio.Bcache.Bget` | xv6-public/bio.c:58-93 | the block's own buffer, or else the least recently used idle one; a pinned or used buffer is never taken; panics exactly if neither exists |
| `Bio.Bcache.Iderw` | xv6-public/memide.c:38-60 | a dirty buffer goes to the disk, an invalid one comes from it |
| `Bio.Bcache.Bread` | xv6-public/bio.c:95-106 | whatever happened since bget, the caller sees the latest contents of the block |
| `Bio.Bcache.Modify` | xv6-public/bio.c:8-19 | the holder's change becomes the latest contents |
| `Bio.Bcache.Pin` | xv6-public/log.c:215-234 | a block in the log header has a dirty buffer from then on, and only such blocks have |
| `Bio.Bcache.Bwrite` | xv6-public/bio.c:108-116 | the disk gets the latest contents and the buffer is clean |
| `Bio.Bcache.Brelse` | xv6-public/bio.c:118-141 | the last user gone, the buffer becomes the most recently used and the others keep their order; the ring stays a permutation of all buffers |
| `Ring.Unlinked` | xv6-public/bio.c:130-133 | the two stores take the node out of the ring and leave the order of the rest |
| `Ring.Linked` | xv6-public/proc.c:95-113 | the four stores put a node between two neighbours |
| `Collections.Complete` | xv6-public/bio.c:38-56 | a ring of as many distinct buffers as there are holds every one |
| `ShellProofs.LineSound` | xv6-public/sh.c:344-446 | every tree the parser returns has words that are runs of word characters of the line, and modes and descriptors of one of the three redirections |
| `ShellProofs.SoundWf` | xv6-public/sh.c:344-446 | such a tree is well formed, so that it can be printed |
| `ShellProofs.RoundTrip` | xv6-public/sh.c:344-446 | the printed form of any well-formed tree, anywhere in a line and at any level, parses back to it |
| `ShellProofs.PrintThenParse` | xv6-public/sh.c:327-342 | printing any well-formed tree and parsing the line gives the tree |
| `ShellProofs.ParsePrintParse` | xv6-public/sh.c:327-342 | any line that parses gives a tree that prints and parses to the same tree |
| `ShellGrammar.ParsesExactly` | xv6-public/sh.c:265-446 | for every line: parsecmd returns a tree if and only if the line's tokens derive it by the grammar, with "<" for (O_RDONLY, 0), ">" and ">>" for (O_WRONLY with O_CREATE, 1), words and redirections in any order; so the tree is unique and it panics exactly on the lines that have none |
| `ShellGrammar.LexUnique` | xv6-public/sh.c:265-308 | a line is longest words, symbols, ">>" and blanks in one way only, the one gettoken gives |
| `Shell.Gettoken` | xv6-public/sh.c:265-308 | the loops compute the token function, blanks on both sides skipped |
| `Shell.PeekAt` | xv6-public/sh.c:310-320 | the next character after blanks, and whether it is one of those asked for |
| `Shell.Parseredirs` | xv6-public/sh.c:374-397 | the loop computes the redirections in order; ends on every input |
| `Shell.Parseexec` | xv6-public/sh.c:415-446 | the loop computes the words and redirections; ends on every input |
| `Shell.Parseblock` | xv6-public/sh.c:399-413 | the block in parentheses with the redirections after it |
| `Shell.Parsepipe` | xv6-public/sh.c:361-372 | right-nested pipelines; ends on every input |
| `Shell.Parseline` | xv6-public/sh.c:344-359 | background marks and right-nested lists; ends on every input |
| `Shell.Nulterminate` | xv6-public/sh.c:449-493 | a NUL is stored just after each word of the tree and nowhere else |
| `Shell.WordsSurvive` | xv6-public/sh.c:449-493 | no NUL falls inside a word: each word, read as a C string, is the text it had in the line |
| `Shell.Parsecmd` | xv6-public/sh.c:327-342 | the tree that the grammar derives from the line, or a panic exactly if there is none; sound, with every word terminated in the buffer; a panic leaves the buffer alone |
| `HeapSpec.UnitsHold` | xv6-public/umalloc.c:69 | the units of a request hold it if and only if rounding up does not wrap around |
| `HeapSpec.Apart` | xv6-public/umalloc.c:24-90 | two blocks never overlap |
| `HeapSpec.NoneTouch` | xv6-public/umalloc.c:24-44 | no two free blocks touch |
| `HeapSpec.UnitsConserved` | xv6-public/umalloc.c:24-90 | the sizes of free and used blocks sum to the units obtained from sbrk |
| `HeapSpec.Insertion` | xv6-public/umalloc.c:30-43 | linking a block in keeps the ring in address order |
| `HeapSpec.Freeing` | xv6-public/umalloc.c:33-43 | free's stores make the block, and nothing else, free, joined to its neighbours where they touch |
| `HeapSpec.Taking` | xv6-public/umalloc.c:76-77 | an exact fit leaves the ring |
| `HeapSpec.Splitting` | xv6-public/umalloc.c:78-82 | a larger block loses its tail |
| `HeapSpec.Growing` | xv6-public/umalloc.c:46-61 | a fresh area becomes a block |
| `HeapSpec.OwnWrites` | xv6-public/umalloc.c:24-90 | a program that writes inside its own blocks leaves the heap alone |
| `Umalloc.SearchTest` | xv6-public/umalloc.c:30-32 | the test that ends free's search holds at the right place and nowhere else |
| `Umalloc.Allocator.Search` | xv6-public/umalloc.c:30-32 | free's search ends, at the greatest node of the ring below the block |
| `Umalloc.Allocator.Free` | xv6-public/umalloc.c:24-44 | the block is no longer in use, every other block in use is, with its contents; units are conserved; the freed units are available |
| `Umalloc.Allocator.Morecore` | xv6-public/umalloc.c:46-61 | a failing sbrk changes nothing; else an area of the units asked for, and no less than 4096, joins the heap and something fits |
| `Umalloc.Allocator.Carve` | xv6-public/umalloc.c:75-86 | the block handed out was not in use, has the units asked for, and no unit in use changed |
| `Umalloc.Allocator.Malloc` | xv6-public/umalloc.c:63-90 | fails exactly if nothing fits and sbrk fails; else exactly one block more is in use, which holds the request if and only if rounding up does not wrap around; if something fits, that block is the tail of the first one large enough after `freep`, and the next search starts at the node before it; an area is obtained only when nothing fits, and at most one |
| `StrideSpec.SpreadKept` | xv6-public/proc.c:784-836 | paths within one longest stride stay so after every pick |
| `StrideSpec.PathGrowth` | xv6-public/proc.c:784-836 | a path has grown by one stride per pick |
| `StrideSpec.TotalGrowth` | xv6-public/proc.c:784-836 | weighted, the growth of all paths is 100 per pick |
| `StrideSpec.ShareBound` | xv6-public/proc.c:784-836 | a client's picks are within 2Sw/100 of its share of them |
| `Sched.WeightsSum` | xv6-public/proc.c:209-223 | with the default class present the weights sum to 100 |
| `Sched.Scheduler.Survey` | xv6-public/proc.c:181-207 | the loop finds the first fixed share of least path, the first default process of least level, the total of the shares and whether MLFQ has anything to run |
| `Sched.Scheduler.MinProc` | xv6-public/proc.c:702-712 | the second only if its path is less |
| `Sched.Scheduler.UpdateVals` | xv6-public/proc.c:168-225 | strides fit the weights; a class just back starts from the least path of the others, for any answer of the queue that can run, a stale one included |
| `Sched.Scheduler.ChooseByStride` | xv6-public/proc.c:744-758 | a process of the first client of least path, fixed shares before MLFQ before the default class, or none exactly if nothing can run; with a stale answer a process that can run, of MLFQ only if it is the answer |
| `Sched.Scheduler.Step` | xv6-public/proc.c:784-832 | one turn advances exactly the chosen client by its stride, 100 over a fixed share, 5 for MLFQ, 100 over what is left for the default class; a process chosen from the default class is the first of least level, it is one level further on and nobody else is; with a stale answer of the default class no process of MLFQ is chosen and the class's path stays |
| `Sched.Scheduler.Stretch` | xv6-public/proc.c:769-836 | over any number of turns with the same processes able to run, the picks are a run of the stride rule that ends in the paths reached, the paths stay within one longest stride, and every client gets its share to within 2Sw/100; levels of the default class within one stay so, and the turns of any two of its processes differ by at most one more than their levels did |
| `Sched.TurnsEven` | xv6-public/proc.c:181-207 | that bound, from levels that grow by the turns and stay within any gap of one or more |
| `Sched.EnteredSpread` | xv6-public/proc.c:212-217 | a class that comes back keeps the paths as close as the others are |
| `Sched.TotalClaimed` | xv6-public/proc.c:256-282 | the shares of those that can run never exceed the limit |
| `Sched.ClaimsStay` | xv6-public/proc.c:256-282 | sleeping, waking and running keep every claim |
| `Sched.Scheduler.GetMinPath` | xv6-public/proc.c:236-245 | the least path of the clients, or 0 when nothing can run |
| `Sched.Scheduler.CpuShare` | xv6-public/proc.c:256-282 | succeeds exactly for a positive share within the limit, and then starts level with the least path; nobody else's mode, share, level or path changes |
| `MlfqQueue.BetweenHeaders` | xv6-public/proc.c:47-144 | a node lies after exactly the headers of its level and below |
| `MlfqQueue.Queue.constructor` | xv6-public/proc.c:47-78 | the four headers, linked |
| `MlfqQueue.Queue.Remove` | xv6-public/proc.c:115-124 | the list without the node; a node outside the list stays out |
| `MlfqQueue.Queue.InsertBefore` | xv6-public/proc.c:105-113 | the list with the node before the target |
| `MlfqQueue.Queue.InsertAfter` | xv6-public/proc.c:95-103 | the list with the node after the target |
| `MlfqQueue.Queue.Alloc` | xv6-public/proc.c:80-93 | the first node not in use, or past the array exactly if every node is |
| `MlfqQueue.Queue.Enter` | xv6-public/proc.c:284-305 | a fresh node at the front of level 0, if there is one |
| `MlfqQueue.Queue.Requeue` | xv6-public/proc.c:843-846 | to the back of its level |
| `MlfqQueue.Queue.LowerLevel` | xv6-public/proc.c:136-144 | to the back of the next level, except from the last |
| `MlfqQueue.Queue.Delete` | xv6-public/proc.c:126-134 | gone from the list and unused, also if the walk has deleted it before |
| `MlfqQueue.Queue.Choose` | xv6-public/proc.c:715-742 | the node whose slice is in progress while it can run, else the first that can; exactly the dead nodes passed are deleted |
| `MlfqQueue.Queue.Tick` | xv6-public/proc.c:832-853 | a slice is 1, 2 or 4 ticks by the level; at its end the node goes to the back of its level, or with 5 or 10 ticks spent there to the back of the next; at the last level, with 1000 spent, its time starts again and it stays in place; no other node changes |
| `MlfqLife.FiveTicks` | xv6-public/proc.c:832-853 | the accounting keeps a process 5 ticks at level 0, whatever the slice counter is at its ticks |
| `MlfqLife.TenTicks` | xv6-public/proc.c:832-853 | it keeps it 10 ticks at level 1 if and only if an even number of its slices there started with the counter above 0, else 11 |
| `MlfqLife.FourByFour` | xv6-public/proc.c:832-853 | at level 2 with no slice cut it is there four ticks at a time, and its time starts again after each 1000 |
| `MlfqLife.StaysLast` | xv6-public/proc.c:136-144 | whatever the counter is at its ticks it never leaves level 2 |
| `MlfqLife.LastLevel` | xv6-public/proc.c:832-853 | its time there starts again exactly when a slice ends with 1000 or more |
| `MlfqLife.NoCuts` | xv6-public/proc.c:832-853 | if the counter is 0 at each of its ticks no slice is cut |
| `MlfqLife.Turn` | xv6-public/proc.c:715-853 | one choice and its accounting move a process that can run exactly as its life says, and leave those asleep alone |
| `MlfqLife.WholeSlice` | xv6-public/proc.c:715-853 | over the queue: a process that can run at each choice, whose slice starts with the counter at 0, is the answer for exactly 1, 2 or 4 ticks of the class by its level, whatever the other processes do, and then goes to the back of its level, to the next, or at the last, with 1000 spent, stays in place |
| `MlfqLife.Live` | xv6-public/proc.c:715-853 | over every run of the queue in which a process can run at each choice, whatever the others do, the answers are processes of the queue that can run, and as many ticks are charged as it was the answer with the class picked; it spends exactly 5 ticks at level 0, and 10 at level 1 if and only if an even number of its slices there were cut, else 11; none is cut if nobody blocks, and one at most if the others never run |
| `MlfqLife.EleventhTick` | xv6-public/proc.c:715-853 | a run of the queue with two processes: after its ten ticks at level 1 the first is still there |
| `MlfqSched.EventKeeps` | xv6-public/proc.c:80-305 | every process alive in the class has one node and no other process alive has any; sleeping, waking, running, exiting, being waited for, leaving the class and accounting keep this; fork does if and only if the slot has no node left, run_MLFQ if and only if the process is not in the class, a deletion by the walk if and only if the process is not running |
| `MlfqSched.EventEffect` | xv6-public/proc.c:497-1000 | each event puts its process in its state and mode, and leaves every other process alone |
| `MlfqSched.AlwaysMatched` | xv6-public/proc.c:80-305 | so over every sequence of events that observes the three conditions the table and the queue match |
| `MlfqSched.Choose` | xv6-public/proc.c:715-742 | with the two matched choosebymlfq answers a process of the class that can run, or none exactly if there is none, and they still match if no process is running |
| `MlfqSched.Kernel.Pass` | xv6-public/proc.c:784-853 | one turn of the scheduler, from the queue's answer to the accounting: exactly the chosen client advances by its stride, and the chosen process of the class is charged |
| `MlfqSched.Kernel.Stretch` | xv6-public/proc.c:769-853 | over any number of such turns the picks are a run of the stride rule that ends in the paths reached, every client gets its share to within 2Sw/100, and the default class takes turns as in `Sched.Scheduler.Stretch` |
| `MlfqSched.Kernel.CpuShare` | xv6-public/proc.c:256-282 | cpu_share keeps the two matched and the process has no node afterwards, although the walk may have deleted its node before; nobody else's mode, share, level or path changes |
| `MlfqSched.SlotReused` | xv6-public/proc.c:656-742 | a run of events that keeps the match, then a fork into a slot with a node left: after the next tick the queue's answer is a process of the default class |
| `MlfqSched.Starves` | xv6-public/proc.c:715-832 | such an answer stays one at every choice at which it can run: over any number of turns no process of the class is chosen and the class's path does not advance |
| `MlfqSched.Starved` | xv6-public/proc.c:656-832 | that state is reached from `MlfqSched.SlotReused`, with a process of the class that can run |
| `Pipe.Counters` | xv6-public/pipe.c:84-117 | full and empty are told apart, and the unread count is the counters' difference modulo 2^32, across wrap-around |
| `Pipe.Buffer.Put` | xv6-public/pipe.c:93 | one byte appended |
| `Pipe.Buffer.Get` | xv6-public/pipe.c:116 | the oldest unread byte |
| `Pipe.Buffer.Write` | xv6-public/pipe.c:78-98 | the bytes are appended in order; a sleeping writer implies full with the read end open; from a state with nobody stuck readers are left stuck exactly if some sleep, the writer is refused, and it has more bytes than the pipe holds |
| `Pipe.Buffer.Read` | xv6-public/pipe.c:100-121 | the bytes read continue the prefix of the bytes appended; a sleeping reader implies empty with the write end open |
| `Pipe.Buffer.Close` | xv6-public/pipe.c:59-75 | nobody is left waiting for a closed end; freed exactly when both ends are closed |
| `Pipe.RefusedWriter` | xv6-public/pipe.c:78-98 | a case of a reader asleep beside a full buffer |
| `ThreadStacks.PresentInUse` | xv6-public/proc.c:1063-1153 | stacks in use are mapped and stacks kept for reuse are not |
| `ThreadStacks.Space.Grow` | xv6-public/proc.c:468-492 | growing keeps stacks disjoint and below sz |
| `ThreadStacks.Space.Create` | xv6-public/proc.c:1063-1153 | the new stack's pages were unmapped, disjoint from every other stack, and the counts stay within NPROC |
| `ThreadStacks.Space.Dealloc` | xv6-public/proc.c:1230-1271 | the stack is unmapped and kept for reuse, or sz shrinks; emptystackcnt stays within NPROC |
| `VmSpec.TableAdded` | xv6-public/vm.c:35-55 | a fresh table changes no mapping |
| `VmSpec.EntrySet` | xv6-public/vm.c:60-80 | tables are not shared: an entry set changes the mapping of one page of one space |
| `VmSpec.PageMapped` | xv6-public/vm.c:60-80 | a page mapped has one place |
| `VmSpec.PageUnmapped` | xv6-public/vm.c:255-279 | a page unmapped has none |
| `VmSpec.TableDropped` | xv6-public/vm.c:283-298 | a table without user pages can go |
| `Vm.Kernel.Kfree` | xv6-public/kalloc.c:59-77 | the page heads the free list |
| `Vm.Kernel.Kalloc` | xv6-public/kalloc.c:82-95 | a page that nobody has, or none exactly if none is free |
| `Vm.Kernel.FreeRange` | xv6-public/kalloc.c:46-53 | the whole pages between the bounds, and no more, join the pool |
| `Vm.Kernel.WalkPgdir` | xv6-public/vm.c:35-55 | finds the entry, makes a table if asked, fails exactly if it has to and no page is free, and changes no mapping |
| `Vm.Kernel.MapPage` | xv6-public/vm.c:60-80 | one page of one space changes; fails exactly if its table is missing and no page is free, and then changes none |
| `Vm.Kernel.MapRange` | xv6-public/vm.c:60-80 | the run of pages maps to the run of physical pages with the permissions given, nothing else changes; fails exactly if there are fewer free pages than missing tables |
| `Vm.Kernel.Setupkvm` | xv6-public/vm.c:118-136 | a space with the kernel's mappings and no user pages, exactly if a page for it and one for each of its tables is free; on failure everything is as it was |
| `Vm.Kernel.Allocuvm` | xv6-public/vm.c:221-249 | zeroed pages of its own from one size to the other, exactly if none of them is mapped and the pages and missing tables are free; panics exactly if the free pages reach a page that is mapped; on failure the range is unmapped and every other mapping and page is as it was, so all mappings are exactly if none of the range was mapped |
| `Vm.OccupiedRange` | xv6-public/vm.c:221-249 | in a space with page 1 mapped and no page free, a call from 0 fails and unmaps page 1 |
| `Vm.OccupiedSpace` | xv6-public/vm.c:221-249 | such a space exists |
| `Vm.Kernel.Deallocuvm` | xv6-public/vm.c:255-279 | every page of the range is gone although missing tables are skipped a slot at a time, and nothing else changed |
| `Vm.Kernel.Freevm` | xv6-public/vm.c:283-298 | every page of the space is free, every other page keeps its place |
| `Vm.Kernel.Copyuvm2` | xv6-public/vm.c:348-378 | the copy has the same pages present with the same flags and contents on pages of its own, exactly if the free pages are as many as the directory, the kernel's tables, the pages present and the tables they need; on failure everything is as it was |

## Left out

- LogHistory.NoOperationHalfPresent: needs one committer at a time, because the code does not ensure it and the property is false without it.
- LogRuns.NoStuckWaiter: for runs in which nobody enters sync while somebody is inside, because its first clause is false otherwise (`LogStuck.LateLeaverClosesGuard`); `LogRuns.EverySleeperAwaited` is for every run.
- LogRuns.WaitingDrains: as for NoStuckWaiter.
- LogRuns.LogNeverOverflows: needs each operation to log at most MAXOPBLOCKS new blocks, which `FileSystem.FileSystem.Writei` and `FileSystem.FileSystem.Itrunc` give below nine bitmap blocks and `FsWorst.FullChunk` refutes with nine.
- Log.Log.WriteHead: the header block is a sequence of words, not bytes, and a disk block's contents are of any type; the block that holds the header has no other contents.
- FileSystem.FileSystem.Balloc: the bytes of the bitmap blocks are one sequence beside the data blocks; a call names the bitmap block it logs.
- FileSystem.FileSystem.Readi: files start without holes, the mapped blocks being exactly those below the size rounded up; the size that `xv6-public/mkfs.c:158-163` gives the root directory can be outside this. Device files end at the test for them.
- FileSystem.FileSystem.Writei: as for Readi; the exact condition of the panic is for writes up to a chunk, the longest that any caller makes.
- FileSystem.FileSystem.Filewrite: as for Readi, and not for pipes; the layout of an inode in its block is not modelled.
- Links.Inodes.Create: where the directory has lost its name, inodes that are unlinked and still there are taken to be referred to, which `Links.CountsAlwaysAgree` gives. A directory's contents are a sequence of entries; that they are stored through readi and writei is not joined to the file model.
- Links.CountsAlwaysAgree: operations in linked directories and below the overflow of a count, because the property is false otherwise, as shown.
- Bio.Bcache.Brelse: a holder that changed the data has handed it to bwrite or log_write, which every caller in the kernel does.
- Shell.Parseexec: in the source the node of a simple command is filled in place after redirections were wrapped around it; here the wrapped node is rebuilt with its words.
- Umalloc.Allocator.Malloc: where nothing fits, what sbrk is asked for is an int, because a larger amount reaches it as a negative count; sbrk is a parameter that gives units never given before.
- Sched.Scheduler.Step: one processor, processes without other threads, reals for doubles; what choosebymlfq answers is a parameter that can run and is of MLFQ or the default class, and the full guarantee is for an answer of MLFQ, for which `MlfqSched.Choose` gives the conditions.
- Sched.Scheduler.UpdateVals: as for Step.
- Sched.Scheduler.ChooseByStride: as for Step.
- Sched.Scheduler.Stretch: as for Step, with answers of MLFQ only, because with a stale one the shares are false (`MlfqSched.Starves`).
- Sched.Scheduler.GetMinPath: as for Stretch.
- Sched.Scheduler.CpuShare: as for Stretch.
- MlfqQueue.Queue.Tick: `priorityboost` is not reached, because the counter it waits for never gets beyond 3.
- MlfqQueue.Queue.Enter: for a process without other threads; with every node in use the source writes past the array, and here nothing changes.
- ThreadStacks.Space.Create: the paths on which allocuvm succeeds, sizes in whole pages, no exec and no negative sbrk; the failing paths of the source keep a lock held.
- Vm.Kernel.MapPage: for a page that is not mapped, because mappages panics on one that is; `Vm.Kernel.Allocuvm` has that panic.
- Vm.Kernel.MapRange: as for MapPage.
- Vm.Kernel.Allocuvm: after a panic only the validity of the tables is stated; page tables made before a failure stay, in the source as here.
- Vm.Kernel.Deallocuvm: sizes up to KERNBASE, the largest that any caller passes.
- Vm.Kernel.Copyuvm2: page tables exist over the whole size, else the source panics. The contents of a page are a value of any type.
- MlfqSched.EventKeeps: processes without other threads; thread_create and the deallocation of threads are not events.
- Pipe.Buffer.Write: copying from user memory is not modelled; an atomic section is what the pipe's lock makes one.
- Path resolution (`namex`, `skipelem`), the inode cache's slots and the system calls around these functions: they would add easier members only.
- `exec`, `dealloc_other_threads`, `sleep_other_threads`, `getlev`: they break the invariants above or take a lock twice.
- Spin locks, sleep locks, context switches, interrupts, device drivers, boot code and the assembly files: taken as atomic steps or outside the model.
- User programs other than the shell's parser and the allocator, printf, the console and the image builder.
