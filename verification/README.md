# coolOS, modelled and proved in Dafny

coolOS is a 64-bit hobby kernel. This project models the parts of it where a mistake would be quiet and expensive, in
Dafny 4.11, and proves what those parts promise for all inputs, all runs or all reachable states.

- **CoolFS** (`Cool*.dfy`): the root file system, from sectors that may fail through the 64-slot write-back cache, the
  flat image, inodes, bitmap and blocks up to the tree of files. Every operation on the image is proved to do what one
  function does on the tree; the tree functions then carry the invariants and the guarantees of replacing a file.
  The superblock is part of the image, so mounting again after a flush finds the same tree.
- **Scheduler** (`Sched*.dfy`): the task table as a state machine with one step for each public function, safety and
  fairness over whole runs, and the object that performs the steps in place.
- **Keyboard** (`Keyboard.dfy`): the lock-free event queue, at the level of single loads and stores.
- **NVMe** (`Nvme.dfy`): submission and completion queues with phase bits, against a controller that answers when it
  likes, and sector access on top.
- **ELF loader** (`Elf*.dfy`, `FrameAlloc.dfy`): header and segment checks, page contents, the frames behind them, the
  initial stack, and what the program finds.
- **FAT32** (`Fat*.dfy`, `Lfn.dfy`): the allocation table as a set of disjoint chains, file writes, long file names.
- **Installer** (`DiskLayout.dfy`, `InstallPlan.dfy`, `Installer.dfy`, `Checksums.dfy`): partition tables, layouts, the
  installation job, and the two checksums.

Objects the kernel updates in place are classes; each method is proved against a function on values, about which the
laws are proved. Failures of devices and of memory are nondeterministic choices. `dafny verify dfyconfig.toml` checks
the whole project.

## Findings

Properties that the code does not have, with an input that shows it or the exact condition under which they hold.

- Replacing a file named like the temporary, `CWTMP.TMP` in any case (src/coolfs.rs:452-480): success leaves nothing at
  the path, and a failure after the first deletion loses the old content. `CoolSafeWrite.SafeExact`, `TmpNameExample`,
  `TmpErrExact`, `TmpErrExample`.
- `exec` in a program with threads (src/syscall/process.rs:149-163) frees the address space the other threads run in.
  `SchedSafety.ExecExact`, `ExecExample`.
- The initial stack (src/elf.rs:300-347): the size check leaves out the alignment padding, so with an even number of
  arguments and fewer than eight bytes to spare the builder writes below the page, into the frame below. While frames
  ascend that is the program's own next page, and nothing is lost; with frames that were given back, which come in the
  opposite order, it is the guard page, and the program reads 0 for argc. `ElfStack.StaysInPage`, `LeavesPage`, `ElfLoad.ProgramFinds`,
  `PageDisturbed`, `FreshFinds`, `RecycledMisses`.
- The check of the installed MBR (src/installer.rs:1614-1650) rejects a faithful copy when the source holds a
  CoolFS partition of another extent in an earlier slot. `InstallPlan.MbrCheckExact`, `MbrCheckExample`.
- A long file name with U+FFFF (src/fat32.rs:366-389) is accepted and comes back without that character.
  `Lfn.ExactWithoutPad`, `PadCharLost`.
- The GPT headers (src/installer.rs:1479-1485) count the first sector of the backup entries as usable.
  `InstallPlan.UsableReachesBackup`.
- After one NVMe command times out (src/nvme.rs:376-416) at least the next fifteen on that queue fail, because each
  call takes at most one answer, that of an earlier command; none succeeds until the timeouts fill the ring of sixteen
  a whole number of times, which loses the commands in it. `Nvme.TimeoutIsFinal`, `NextFifteenFail`, `RingComesRound`.
- A kill takes the lock twice (src/scheduler.rs:1105-1130). A target that exits in between loses its exit code; one that
  is reaped in between can be waited for again, and its address space freed twice. `SchedKill.KillAcross`,
  `CodeOverwritten`, `ReapedTwice`, `ReapedBetween`.
- Replacing a file takes the lock for each step (src/coolfs.rs:452-480). Two replacements in one directory share the
  temporary, so that one can succeed with the other's data; and if others take the free blocks between the deletion and
  the renaming, the file is left under the temporary's name. `CoolAmong.SameTemporary`, `TwoReplacements`,
  `SafeReplaceAmong`.

## Model

| member | source | states |
|---|---|---|
| `CoolCache.BlockCache.constructor` | src/coolfs.rs:574-579 | The empty cache stands for exactly what the disk holds. |
| `CoolCache.BlockCache.WithCleanBlock` | src/coolfs.rs:581-591 | A cache preloaded with one block as read stands for exactly what the disk holds. |
| `CoolCache.BlockCache.CacheIndex` | src/coolfs.rs:612-650 | Whatever request fails, the plain array of blocks the cache stands for does not change; only from a full cache and on a miss does a block leave, and until the 64-bit clock wraps it is the one whose last access is longest ago. |
| `CoolCache.BlockCache.Get` | src/coolfs.rs:601-604 | A successful read returns the block of the plain array, whether it was cached, dirty or on disk. |
| `CoolCache.BlockCache.Write` | src/coolfs.rs:606-610 | A successful write changes one block of the plain array and nothing else; a failed one changes nothing. |
| `CoolCache.BlockCache.Flush` | src/coolfs.rs:652-660 | After a successful flush the disk holds the plain array block for block; after a failed one the cache still stands for the same array. |
| `CoolCache.BlockCache.TrimClean` | src/coolfs.rs:662-683 | Trimming drops only clean blocks other than block 0, never a younger one before an older one, stops at the limit or when nothing more can go, and leaves the array as it was. |
| `CoolCache.Device.ReadDiskBlock` | src/coolfs.rs:1257-1272 | A block read is the eight sectors that make it up, or an error. |
| `CoolCache.Device.WriteDiskBlock` | src/coolfs.rs:1274-1288 | A block write changes no other block, even when it fails part-way. |
| `CoolPaths.SplitComponents` | src/coolfs.rs:1203-1217 | Splitting a path into parent and name splits its components there, so both name the same place. |
| `CoolPaths.TmpComponents` | src/coolfs.rs:459-464 | The path of the temporary is the name CWTMP.TMP in the parent directory, whether the parent ends in a slash or not. |
| `CoolTreeOps.CreateInEffect` | src/coolfs.rs:540-571 | Creating adds one record for the first free inode to one directory and changes nothing else; on any error the tree is as before, the inode given back. |
| `CoolTreeOps.DeleteInEffect` | src/coolfs.rs:482-503 | Deleting removes one record and its inode, never a directory with records; on any error the tree is as before. |
| `CoolTreeOps.RenameInEffect` | src/coolfs.rs:505-532 | Renaming changes the name in one record to one no other record has, ignoring case; on any error the tree is as before. |
| `CoolTreeOps.WriteInEffect` | src/coolfs.rs:427-438 | Writing replaces the bytes of one file and keeps its metadata, or fails and changes nothing; either way blocks in use and free blocks add up to the data region. |
| `CoolTreeOps.ApplyKeeps` | src/coolfs.rs:371-571 | Every modelled operation keeps the invariant: a root, every record names a live inode, every other live inode has exactly one record and a path from the root, names are unique ignoring case, and free and needed blocks add up to the data region; one that fails changes nothing, replacing a file apart. |
| `CoolTreeOps.ReachableOk` | src/coolfs.rs:371-571 | The invariant holds after every run of operations from a formatted disk on. |
| `CoolReplace.UniquePath` | src/coolfs.rs:1129-1148 | Two paths that lead to the same inode differ at most in case. |
| `CoolReplace.OneTree` | src/coolfs.rs:1129-1148 | In every reachable state each live inode has a path from the root, and only that one but for case: no cycles, no detached directories. |
| `CoolSafeWrite.SafeReplace` | src/coolfs.rs:452-480 | For every target not named like the temporary, with nobody between the steps: success shows exactly the new bytes and metadata at the path and no temporary, failure shows what was at the path before, and no path but these two changes either way. |
| `CoolSafeWrite.RenameCannotFail` | src/coolfs.rs:472-479 | Once the old file is deleted, renaming the temporary cannot fail, so the file is not lost between the two steps. |
| `CoolSafeWrite.TmpNameIsLost` | src/coolfs.rs:452-480 | If the target is named like the temporary, in any case, a success leaves nothing at the path. |
| `CoolSafeWrite.SafeExact` | src/coolfs.rs:452-480 | A success shows the new file if and only if the name is not the temporary's, ignoring case. |
| `CoolSafeWrite.TmpNameExample` | src/coolfs.rs:452-480 | On a formatted disk, replacing /CWTMP.TMP by an empty file succeeds and leaves nothing there. |
| `CoolSafeWrite.TmpShows` | src/coolfs.rs:452-480 | What the temporary's own name shows after a replacement, for each step that can end it. |
| `CoolSafeWrite.TmpErrExact` | src/coolfs.rs:452-480 | With that name, after a failure an old file that is neither empty nor the new data is still there if and only if the parent directory with one record fewer needs more blocks than are free. |
| `CoolSafeWrite.TmpErrExample` | src/coolfs.rs:452-480 | A tree that holds only /CWTMP.TMP with one byte: replacing it by data over the size limit fails, and the old file is gone. |
| `CoolAmong.OpLeaves` | src/coolfs.rs:371-571 | An operation changes nothing at a path it is not about: not created, deleted, written or relabelled by it, not renamed nor below a directory that is, and not the target or temporary of a replacement. |
| `CoolAmong.RenameExact` | src/coolfs.rs:505-532 | A file is renamed to a free name if and only if its directory fits into the free blocks beside itself. |
| `CoolAmong.NobodyElse` | src/coolfs.rs:452-480 | The protocol with operations of others between its steps, of which there are none, is the protocol. |
| `CoolAmong.SafeReplaceAmong` | src/coolfs.rs:452-480 | With any operations of others between the steps that are not about the target or the temporary: success shows the new file and no temporary; a failure keeps what was at the target if and only if others have not taken the blocks for the directory between the deletion and the renaming, and if they have, the new data are under the temporary's name. |
| `CoolAmong.SameTemporary` | src/coolfs.rs:452-480 | Another replacement in the same directory goes through the same temporary: with its first three steps after the third of this one, a success shows the other's data. |
| `CoolAmong.TwoReplacements` | src/coolfs.rs:452-480 | On a formatted disk, two replacements in the root interleaved that way: the first succeeds and its file holds the second's data. |
| `CoolLayout.InodeRoundTrip` | src/coolfs.rs:686-729 | An inode record reads back as written, with the mode shown normalised. |
| `CoolVolume.DirRoundTrip` | src/coolfs.rs:1150-1190 | A directory's records read back as written. |
| `CoolVolume.ViewInode` | src/coolfs.rs:715-729 | Writing one inode record changes that inode and no other structure on the image, the superblock included. |
| `CoolVolume.ViewBit` | src/coolfs.rs:866-875 | Setting one bitmap bit changes the state of that block and no other structure. |
| `CoolVolumeLaws.ReownAbs` | src/coolfs.rs:959-1023 | Giving one inode new blocks taken from the free ones, and freeing its old ones, keeps ownership disjoint and the bitmap exact, and changes only that node and the free count of the tree. |
| `CoolImage.Image.ReadVec` | src/coolfs.rs:796-811 | A read across block boundaries returns those bytes of the flat image. |
| `CoolImage.Image.WriteAt` | src/coolfs.rs:813-827 | A write across block boundaries overwrites exactly those bytes; a failed one has written a prefix. |
| `CoolImage.Image.WriteInode` | src/coolfs.rs:715-729 | Afterwards the structured view differs in that inode only. |
| `CoolImage.Image.AllocBlock` | src/coolfs.rs:877-886 | The lowest free block of the data region is taken and zeroed; NoSpace exactly when none is free. |
| `CoolImage.Image.AllocBlocks` | src/coolfs.rs:964-976 | As many free blocks as asked for, exactly when there are that many; otherwise the blocks taken are given back and no block in use changes. |
| `CoolImage.Image.WriteInodeBytes` | src/coolfs.rs:959-1023 | Replacing a content succeeds exactly when it is within the size limit and the free blocks suffice beside the old ones; then the inode holds the bytes and every volume invariant holds; otherwise it is NoSpace and nothing in use changes. |
| `CoolImage.Image.ReadInodeBytes` | src/coolfs.rs:940-957 | The bytes read are the content the volume defines, direct and indirect blocks alike. |
| `CoolImage.Image.ReleaseInode` | src/coolfs.rs:929-938 | Exactly the inode's blocks become free and its record is cleared. |
| `CoolImage.ParseDir` | src/coolfs.rs:1150-1173 | The loop over 32-byte records finds the records the directory encodes. |
| `CoolRefine.CreateSteps` | src/coolfs.rs:540-571 | The steps on inodes, bitmap and blocks make the one step on the tree, the give-back after a failed record write included. |
| `CoolRefine.DeleteSteps` | src/coolfs.rs:482-503 | The directory write and the release of the inode make the one step on the tree. |
| `CoolFs.ResolvePath` | src/coolfs.rs:1129-1148 | Resolving on the image gives what walking the tree gives, errors included. |
| `CoolFs.CreateNode` | src/coolfs.rs:540-571 | On the image through the cache: returns the status, and leaves the tree, of the tree operation; the superblock stays. |
| `CoolFs.DeleteFile` | src/coolfs.rs:482-503 | The same for deletion. |
| `CoolFs.Rename` | src/coolfs.rs:505-532 | The same for renaming. |
| `CoolFs.WriteFile` | src/coolfs.rs:427-438 | The same for writing. |
| `CoolFs.ReadFile` | src/coolfs.rs:345-354 | Returns the bytes the tree holds, exactly. |
| `CoolFs.Chmod` | src/coolfs.rs:371-383 | The same for the mode. |
| `CoolFs.Chown` | src/coolfs.rs:385-398 | The same for the owner. |
| `CoolFs.SafeWrite` | src/coolfs.rs:452-480 | The replace protocol on the image does what the protocol on the tree does, step for step, so the results on replacement hold for it. |
| `CoolSuper.SuperRoundTrip` | src/coolfs.rs:76-120 | A superblock written is parsed back if and only if its numbers are plausible. |
| `CoolSuper.FormattedOpens` | src/coolfs.rs:1092-1106 | The superblock that formatting writes is accepted at the next mount, with its geometry. |
| `CoolFormat.FormatImage` | src/coolfs.rs:1108-1127 | Formatting leaves a volume with every invariant that stands for the empty tree, and an accepted superblock. |
| `CoolFormat.LoadOrFormat` | src/coolfs.rs:1092-1106 | A disk whose block 0 is accepted is not written, and opened as it is if it has the geometry of formatting; any other is formatted, and then holds the empty tree with an accepted superblock. |
| `CoolFormat.FlushAndReopen` | src/coolfs.rs:1050-1106 | After a successful flush, mounting the disk again finds the very same bytes and never formats it. |
| `CoolFormat.FormatAndRun` | src/coolfs.rs:371-571 | Format a device and run any operations on it: the image then satisfies every invariant and stands for the tree the run computes. |
| `CoolFormat.RunAndRemount` | src/coolfs.rs:1092-1106 | Format, run anything, flush, mount again: the tree is the one the run computes. |
| `Sched.FrameInBuffer` | src/scheduler.rs:173-229 | The first saved context of a task lies inside its own stack buffer, 16-byte aligned. |
| `SchedSafety.StepKeeps` | src/scheduler.rs:324-1560 | Every step keeps: only the current task runs, exactly the reaped tasks have no stack, a waiting task holds the pointer it last saved, and the address spaces that exist are exactly those of tasks not reaped; an ended task stays ended and a reaped one never changes. The second lock section of a kill is also a step of its own. |
| `SchedSafety.AddressSpaces` | src/scheduler.rs:1352-1365 | Over every run from boot: an address space is freed only while it exists and never twice, exactly those in use by tasks that are not reaped exist, so none is leaked, and the loaded one always exists. |
| `SchedSafety.ResumedStacks` | src/scheduler.rs:448-533 | From boot on: every switch uses the stack pointer that task last saved, and nothing happens on a stack once it is released. |
| `SchedSafety.WaitReturnsExitCode` | src/scheduler.rs:1410-1440 | Whatever happens after an exit but the end of a kill begun before it, the wait that reaps the task returns the code it exited with. |
| `SchedSafety.WaitOnce` | src/scheduler.rs:1410-1440 | A task is reaped by at most one wait. |
| `SchedSafety.ExecExact` | src/syscall/process.rs:134-178 | After exec the address spaces that exist are those in use if and only if no other task that is not reaped shares the old one. |
| `SchedSafety.ExecExample` | src/syscall/process.rs:134-178 | A thread started by the first program: exec then leaves address spaces that do not match those in use. |
| `SchedSafety.FinishExact` | src/scheduler.rs:1121-1130 | The second lock section of a kill keeps the invariant if and only if its target has not been reaped. |
| `SchedKill.KillAcross` | src/scheduler.rs:1092-1131 | Whatever steps come between the check and the end of a kill, the invariant holds afterwards if and only if the target was not reaped meanwhile; so it does if none of them reaps it. |
| `SchedKill.CodeOverwritten` | src/scheduler.rs:1121-1130 | A target that exited meanwhile is waited for with the code of the kill, not its own. |
| `SchedKill.ReapedTwice` | src/scheduler.rs:1121-1130 | A target that was reaped meanwhile is waited for a second time, and an address space it was left with that nobody uses is freed a second time. |
| `SchedKill.ReapedBetween` | src/scheduler.rs:1092-1131 | A run from boot, with a thread, in which that happens. |
| `SchedSafety.IdleRevived` | src/scheduler.rs:448-533 | If idle ended, schedule would run it again exactly when no task is Ready. |
| `SchedSafety.ReapBelowExact` | src/scheduler.rs:1522-1560 | Reaping all exited children reaps exactly those, and returns how many. |
| `SchedFairness.NextUnique` | src/scheduler.rs:495-509 | There is only one next task: the first Ready one after the current, going round, or idle. |
| `SchedFairness.Fair` | src/scheduler.rs:448-533 | A Ready task that nobody kills or stops is switched to within one schedule call for each other task, those spawned meanwhile included. |
| `SchedImpl.Scheduler.constructor` | src/scheduler.rs:136-171 | The table starts with idle alone. |
| `SchedImpl.Scheduler.SpawnUser` | src/scheduler.rs:324-370 | In place: a failed spawn leaves the table as it was and frees the new address space. |
| `SchedImpl.Scheduler.SpawnBlocked` | src/elf.rs:133-182 | In place: a program's task is Blocked before anyone can run it. |
| `SchedImpl.Scheduler.SpawnThread` | src/scheduler.rs:372-414 | In place: a thread shares the address space of the running task, within the limit on tasks. |
| `SchedImpl.Scheduler.FindNext` | src/scheduler.rs:495-509 | The loop finds the first Ready task after the current one, going round, else idle. |
| `SchedImpl.Scheduler.Schedule` | src/scheduler.rs:448-533 | In place: saves, wakes, chooses and switches as the step function does; with no task the interrupted stack goes on. |
| `SchedImpl.Scheduler.KillTask` | src/scheduler.rs:1092-1141 | In place, with nothing between the two sections: each error in the order of the checks, else the task ends with the code and its parent is woken. |
| `SchedImpl.Scheduler.CheckKill` | src/scheduler.rs:1093-1119 | The first lock section: each error in the order of the checks. |
| `SchedImpl.Scheduler.FinishKill` | src/scheduler.rs:1121-1131 | The second, in place: the task ends whatever its status is by then. |
| `SchedImpl.Scheduler.SendSignal` | src/scheduler.rs:1168-1233 | In place: ending signals exit or kill, the others stop, continue or mark the task. |
| `SchedImpl.Scheduler.TakeReapPml4` | src/scheduler.rs:1352-1365 | The address space is handed out for freeing exactly when no other task that is not reaped uses it. |
| `SchedImpl.Scheduler.WaitPid` | src/scheduler.rs:1410-1440 | In place: reaps an exited child and returns its code, or says why not. |
| `SchedImpl.Scheduler.ReapAllExited` | src/scheduler.rs:1522-1560 | In place: the loop, which collects address spaces and frees them at the end, does what reaping one by one does. |
| `SchedImpl.Scheduler.ForceReclaim` | src/scheduler.rs:1367-1408 | In place: ends and reaps a task in one go. |
| `SchedImpl.Scheduler.Perform` | src/scheduler.rs:324-1560 | Any step taken on the object when it is enabled keeps the invariant. |
| `SchedImpl.Scheduler.Run` | src/scheduler.rs:136-1560 | From a fresh object, every run of enabled steps ends in the state the steps compute, with the invariant. |
| `Keyboard.DecodeEncode` | src/keyboard.rs:262-344 | Every key event a driver can push decodes from its word as it was, with the modifiers that fit. |
| `Keyboard.FullIs63` | src/keyboard.rs:115-125 | The full test holds exactly when 63 events are in the queue. |
| `Keyboard.EveryInterleaving` | src/keyboard.rs:115-140 | For every interleaving of single loads and stores of one producer and one consumer: events come out in order, each once, none invented, never more than 63 are held, and an event is dropped exactly when 63 are. |
| `Keyboard.NothingLost` | src/keyboard.rs:115-140 | Every event offered is accepted, dropped or still in the producer's hands, in order. |
| `Keyboard.KeyQueue.PushInput` | src/keyboard.rs:115-125 | On the object: pushing alone is the producer steps in a row, and keeps the ring invariant. |
| `Keyboard.KeyQueue.PopInput` | src/keyboard.rs:132-140 | On the object: popping alone is the consumer steps in a row; it returns nothing exactly when every accepted event was popped. |
| `Nvme.HeadEntry` | src/nvme.rs:392-404 | The phase bit at the head matches exactly when a completion that was not consumed is there; stale entries of earlier laps are never taken. |
| `Nvme.CidTells` | src/nvme.rs:376-390 | Within a lap of the 16-bit ids the id tells which command was answered. |
| `Nvme.ControllerSees` | src/nvme.rs:386-393 | The controller's head equals the tail it was told exactly when it sees no command, also after the ring has come round. |
| `Nvme.WaitingIsLag` | src/nvme.rs:376-416 | Commands the controller sees and answers not taken are, modulo sixteen, the calls left unanswered: commands are lost a full ring at a time. |
| `Nvme.Disk.IssueCommand` | src/nvme.rs:376-416 | True exactly if this very command was answered in time with status 0; then nothing was waiting before it, and its effect is all that happened to the disk. |
| `Nvme.SucceedsExactly` | src/nvme.rs:376-416 | Over every run: a command succeeds if and only if no command and no answer is waiting before it, and the answer taken in its call has status 0. |
| `Nvme.TimeoutIsFinal` | src/nvme.rs:376-416 | Over every run: no command succeeds while the number of calls left unanswered so far is not a multiple of sixteen. |
| `Nvme.NextFifteenFail` | src/nvme.rs:376-416 | After the first timeout of a queue the next fifteen commands fail. |
| `Nvme.RingComesRound` | src/nvme.rs:376-416 | A run in which sixteen commands time out on a silent controller and the seventeenth succeeds. |
| `Nvme.Disk.IssueAll` | src/nvme.rs:376-416 | Issuing any list of commands on the object is such a run. |
| `Nvme.Disk.ReadSector` | src/nvme.rs:191-244 | A successful read returns that 512-byte sector, for every supported block size, and changes none. |
| `Nvme.Disk.WriteSector` | src/nvme.rs:191-244 | A successful write changes exactly that sector; the other sectors of a larger block keep their bytes. A sector outside the disk is refused with nothing sent. |
| `ElfStack.StaysInPage` | src/elf.rs:300-347 | The accepted arguments that leave the stack pointer in the top page are exactly those with an odd count or with eight bytes to spare. |
| `ElfStack.LeavesPage` | src/elf.rs:300-347 | Two arguments that are accepted and push the stack pointer below the page. |
| `ElfStack.WordsInPlace` | src/elf.rs:300-347 | In the builder's window: argc, the pointers, two null words and padding at a 16-byte aligned stack pointer, nothing below touched. |
| `ElfStack.StringInPlace` | src/elf.rs:300-347 | In the builder's window: each pointer leads to its argument's bytes and a NUL, above all words. |
| `ElfStack.BuildInitialStack` | src/elf.rs:300-347 | The loops lay out exactly the accepted arguments and write nothing otherwise, with the right error. |
| `ElfLoad.ProgramFinds` | src/elf.rs:264-347 | Through its own pages the program reads argc, argv pointers, nulls and padding if and only if the builder stayed in the top page or the frame below the top one is behind the program's next page; otherwise it reads 0 for argc. |
| `ElfLoad.PageDisturbed` | src/elf.rs:300-347 | A stack page below the top one, the guard page included, stays zero if and only if the builder stayed in the top page or that page does not have the frame below. |
| `ElfLoad.FreshFinds` | src/elf.rs:264-298 | On frames of one run of the memory map that were never given back, every program finds its words. |
| `ElfLoad.RecycledMisses` | src/elf.rs:264-298 | On such frames given back in the order they were taken, arguments that leave the page make argc read as 0, and the guard page is no longer zero. |
| `FrameAlloc.TakeSound` | src/memory.rs:106-115 | A frame handed out is not in use and will not be handed out again before it is given back. |
| `ElfLoad.AddressSpace.MapPage` | src/vmm.rs:227-271 | A page is mapped with the next free frame; with no other change to the allocator where a page table covers it already. |
| `ElfLoad.ProgramFindsString` | src/elf.rs:300-347 | Through its own pages the program always finds each argument where its pointer says, with its NUL. |
| `ElfLoad.ParseHeader` | src/elf.rs:224-262 | An accepted header has its entry point in user space and its program headers inside the file. |
| `ElfLoad.ValidSegment` | src/elf.rs:393-427 | A segment that passes the checks has its pages in user space and its bytes inside the file. |
| `ElfLoad.SegmentBytes` | src/elf.rs:429-479 | Each byte of a mapped segment's pages is the file byte below its file size and 0 everywhere else. |
| `ElfLoad.AddressSpace.CopyPageData` | src/elf.rs:457-479 | The copy into one page gives exactly the page's share of the segment. |
| `ElfLoad.AddressSpace.LoadSegments` | src/elf.rs:349-391 | Success means headers that are in bounds, clear of the stack and of each other, every segment mapped and no other page touched; a failure other than for lack of resources means headers that are not. |
| `ElfLoad.AddressSpace.LoadImage` | src/elf.rs:196-222 | A loaded program has all its segments as the file has them and its stack as built; the words below the top page land in the page that has the frame below, if one has. |
| `FatTable.Rechain` | src/fat32.rs:1206-1252 | Replacing some chains by one chain leaves every cluster in exactly one chain, free or set aside. |
| `Fat32.SetEntryMirrored` | src/fat32.rs:1254-1275 | Writing an entry keeps the copies of the table in agreement, changes that entry only, and keeps the top four bits of every word. |
| `Fat32.Volume.AllocCluster` | src/fat32.rs:1175-1200 | Takes the lowest free cluster, zeroed, as a chain of its own; fails exactly when none is free. |
| `Fat32.Volume.AllocChain` | src/fat32.rs:1206-1221 | A new chain of that many free clusters, or, exactly when there are too few, the table as it was. |
| `Fat32.Volume.ChainClusters` | src/fat32.rs:158-174 | Following links lists exactly the chain, and ends. |
| `Fat32.Volume.FreeChain` | src/fat32.rs:1249-1252 | Frees exactly the clusters of the chain; bad clusters and all other chains stay. |
| `Fat32.Volume.ExtendDir` | src/fat32.rs:1366-1375 | Appends one zeroed cluster to the directory's chain, or changes nothing when none is free. |
| `Fat32.Volume.WriteFile` | src/fat32.rs:780-828 | Fails exactly when the free clusters do not suffice beside the old ones, and then every file is as before; otherwise the new chain holds the bytes padded with zeros, the old chain is free and every other file keeps its bytes. |
| `Fat32.Volume.WriteThenRead` | src/fat32.rs:780-828 | What is written is read back, byte for byte. |
| `Fat32.NeededFits` | src/fat32.rs:795-798 | The number of clusters computed is enough for the bytes. |
| `Fat32.NeededLeast` | src/fat32.rs:795-798 | One cluster less would not be enough. |
| `Lfn.Utf16RoundTrip` | src/fat32.rs:391-415 | Decoding undoes encoding for every string of Unicode scalar values, surrogate pairs included. |
| `Lfn.EntryReads` | src/fat32.rs:350-364 | Each 32-byte entry reads back as the fragment it was made from. |
| `Lfn.LongNameRoundTrip` | src/fat32.rs:480-513 | For every accepted name, the entries written are read back as the name without its U+FFFF characters. |
| `Lfn.ExactWithoutPad` | src/fat32.rs:366-389 | So the entries are read back as the name if and only if it holds no U+FFFF. |
| `Lfn.PadCharLost` | src/fat32.rs:366-389 | The entries of an accepted two-character name are read back as its first character. |
| `Lfn.ComputeChecksum` | src/fat32.rs:336-340 | The loop over the short name computes the rotating checksum. |
| `Lfn.OrphansRefused` | src/fat32.rs:417-443 | Entries left behind by a short name that differs in one byte are not taken for this one's. |
| `Lfn.EncodeLfnEntries` | src/fat32.rs:480-513 | The loops produce exactly those entries, or none when the name cannot be encoded. |
| `Lfn.AssembleLfn` | src/fat32.rs:366-389 | The loop over sorted fragments yields the assembled name. |
| `Checksums.OneByteNoticed` | src/installer.rs:1736-1743 | Sectors that differ in one byte have different checksums. |
| `Checksums.ComputeSectorChecksum` | src/installer.rs:1736-1743 | The loop computes that checksum. |
| `Checksums.WindowNoticed` | src/disk_layout.rs:338-348 | Data that differ only within four consecutive bytes have different CRC-32s. |
| `Checksums.ComputeCrc32` | src/disk_layout.rs:338-348 | The loops over bytes and bits compute that CRC. |
| `DiskLayout.WritePartitionReads` | src/disk_layout.rs:170-190 | A partition entry written to an MBR reads back, the other three and the boot code are as before. |
| `DiskLayout.BootAreaEnd` | src/disk_layout.rs:281-291 | The end of the boot area is the least one that covers every boot partition; none exactly when one overflows. |
| `DiskLayout.GptEntryReads` | src/disk_layout.rs:149-231 | A GPT entry written parses back to its type and extent. |
| `DiskLayout.HeaderReads` | src/disk_layout.rs:118-260 | A GPT header written parses back to the place and number of its entries. |
| `DiskLayout.FindsBoth` | src/storage.rs:373-413 | Both partitions are found by type on a disk that holds the written tables. |
| `InstallPlan.PlanBios` | src/installer.rs:1214-1248 | Which of the six refusals occurs, and when none does: the boot area is the least that covers every boot partition, the root area starts at the next aligned sector after it, and all of it fits on the target. |
| `InstallPlan.PlanUefiOk` | src/installer.rs:1250-1291 | A UEFI plan keeps clear of both copies of the partition tables. |
| `InstallPlan.RegionsApart` | src/installer.rs:1204-1291 | Boot, root and table sectors are disjoint and on the disk, BIOS sector 0 apart. |
| `InstallPlan.MbrCheckExact` | src/installer.rs:1614-1650 | The check of a patched MBR succeeds if and only if the boot code read again is the same, the root area is not empty and no CoolFS partition of another extent comes before the root entry. |
| `InstallPlan.MbrCheckExample` | src/installer.rs:1614-1650 | An MBR with a CoolFS partition in its first slot: copied and patched faithfully, it fails the check. |
| `InstallPlan.SealedReads` | src/disk_layout.rs:233-260 | A reader that zeroes the checksum field and recomputes the CRC over the 92 header bytes gets that field. |
| `InstallPlan.TablesWhole` | src/installer.rs:1470-1612 | A disk with the written tables passes the check, its backup header leads to identical entries, and every checksum agrees. |
| `InstallPlan.InstalledTablesWhole` | src/installer.rs:1470-1612 | The same for the identities, names and CRC-32 the installer writes. |
| `InstallPlan.UsableReachesBackup` | src/installer.rs:1479-1485 | Both headers count the first sector of the backup entries as usable; no partition written reaches it. |
| `Installer.InstallerJob.constructor` | src/installer.rs:894-918 | A new job starts with the boot copy and satisfies the job invariant. |
| `Installer.InstallerJob.RefreshRoot` | src/installer.rs:1169-1191 | Afterwards the job invariant holds at the flush phase, where it says that the first 128 root sectors of the copy were read once the source was flushed; or the job has failed. |
| `Installer.InstallerJob.WriteTables` | src/installer.rs:1470-1590 | All table sectors at both ends of the disk are the new ones, and no other sector changes. |
| `Installer.InstallerJob.Tick` | src/installer.rs:963-1167 | Whatever the source holds and whichever request fails: in a complete job every root sector and every verified boot sector on the target is one read from its own place, the first 128 root sectors after the flush, each was read back with its checksum, and the tables are in place; and no failure is a mismatch except on a BIOS disk when the MBR condition does not hold. |
| `Installer.CompleteGpt` | src/installer.rs:1652-1689 | After a complete UEFI installation both partitions are found, both headers lead to the same entries and every checksum agrees. |

## Left out

Contracts stated weaker than the code's own reach:

- CoolFormat.LoadOrFormat: an accepted superblock with another geometry than the one formatting writes is answered with `Foreign`, where the kernel would mount it; every other member has that geometry (1536 blocks, 512 inodes). A disk that is formatted fails no request.
- CoolSuper.SuperRoundTrip: the sum of bitmap start and length wraps at 32 bits, as in a release build; a build with overflow checks would stop there.
- CoolImage.Image.WriteInodeBytes: above the cache and byte access the device is reliable, so I/O errors half-way through are not modelled here.
- CoolImage.Image.WriteInode: likewise on a reliable device.
- CoolImage.Image.AllocBlock: likewise on a reliable device.
- CoolImage.Image.AllocBlocks: likewise on a reliable device.
- CoolImage.Image.ReadInodeBytes: likewise on a reliable device.
- CoolImage.Image.ReleaseInode: likewise on a reliable device.
- CoolFs.CreateNode: likewise on a reliable device, and so for the other members of CoolFs.
- CoolFormat.FormatImage: likewise on a reliable device.
- CoolFormat.FormatAndRun: likewise on a reliable device.
- CoolFormat.RunAndRemount: likewise on a reliable device.
- CoolSafeWrite.SafeReplace: nobody comes between the steps; CoolAmong.SafeReplaceAmong states it with others between them.
- CoolFs.SafeWrite: on a reliable device, with nobody between the steps.
- SchedImpl.Scheduler.KillTask: its two lock sections are treated as one step; CheckKill and FinishKill are the sections apart, and SchedKill states what may come between.
- SchedSafety.StepKeeps: takes from the callers that idle never ends, that an ended task only waits to be switched away, that a new address space is not one in use, that exec runs unshared, and that a kill is not finished on a reaped target; ExecExact, FinishExact and IdleRevived say what happens otherwise. Waking the poll waiters of an ended child is a separate unblock step.
- SchedSafety.AddressSpaces: over the runs of such steps.
- SchedSafety.WaitOnce: over the runs of such steps.
- Keyboard.EveryInterleaving: loads and stores are sequentially consistent, with one producer and one consumer.
- Nvme.Disk.IssueCommand: the controller answers in order, takes a command when it completes it and does not overfill the completion queue; one that holds a command while others are issued is not modelled.
- ElfLoad.AddressSpace.LoadImage: page tables are a map from pages to contents and rights, so words the builder writes into a frame that holds a page table, or belongs to somebody else, are only known to be outside the program's pages; no other task takes frames meanwhile.
- Fat32.Volume.WriteFile: table entries are words and clusters are byte blocks, whose sectors are read and written without failing; finding and updating the directory entry is not modelled.
- Fat32.Volume.WriteThenRead: for files below 4 GiB, which is what the size field holds.
- Lfn.LongNameRoundTrip: up to U+FFFF, which the code drops; ExactWithoutPad says when that matters.
- Installer.InstallerJob.Tick: the target stores what it acknowledges, so a read-back never differs; its own write cache is not modelled.

Not modelled:

- CoolFS: listing, statistics, the consistency report, copying a file. Names are bytes; stored names are printable ASCII, so the conversion from UTF-8 has no failing case.
- Scheduler: file descriptors, terminals, working directories, thread-local bases, process groups, and the choice of a victim under memory pressure.
- Keyboard: key tables and modifier tracking.
- NVMe: controller start-up, the admin queue, DMA addresses, flush.
- FAT32: directory search, short names and aliases.
- Installer: progress numbers, messages, plan labels, device selection, the installation and verification outside the job. The kernel's GPT parser ignores the checksums; that they agree is stated, that a reader rejects wrong ones is not.
- The desktop, the network, USB and the rest of the kernel.
