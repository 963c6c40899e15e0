# Verified models of aufs-util

These Dafny modules model the algorithms and protocols of aufs-util that are
hard to see through: in-place compaction, concurrent caches, lock files, work
lists and a linked list under an event loop. Each module follows one part of
the source, in the form the source has: what is updated in place is an array, a
field or a linked node here, loops are loops, and concurrent protocols are step
relations with any number of participants. System calls are parameters (their
outcomes) or small classes with a stated contract.

`dafny verify dfyconfig.toml` checks everything.

## The parts

* **Userspace readdir** - `RduNames`, `RduCompact`, `RduMerge`, `RduInit`,
  `RduDir`, `RduRegistry`. The buffer is an array of bytes with packed records of
  varying length. The two search trees are binary trees searched with the three
  comparators, `do_store` included. The compaction works in the same memory.
* **ULOOP** - `UloopBitmap`, `UloopDaemon`, `UloopProtocol`, `UloopQueues`,
  `UloopProgress` (with `Arith`). The bitmap file with its one-page window, the
  daemon's side, and the whole protocol of readers, daemons and three queues as a
  step relation: what is safe, in which order it serves, and what can get stuck.
* **FHSM move-down list** - `FhsmList`, `FhsmMvdown`. Two files of bytes, the
  reversal of the failed records, and all runs of the child.
* **FHSM watermarks** - `FhsmWmark`. Create, reconcile, sort, search and edit.
* **FHSM daemon** - `FhsmDaemon`. The circular list as linked nodes, and the event
  loop over all sequences of events, beside the kernel's table of children.
* **/etc/mtab** - `MtabUpdate`, `MtabLock`. The two passes over the file, and the
  lock protocol over a file system of names and inodes.
* **Directory walk** - `Nftw`. The recursion over one shared path buffer.

`Basics` holds what several of them share.

## What the proofs found

Where the code does not do what its comments or documents say, the model keeps
to the code, a lemma shows a case, and another says exactly when it works.

* `fhsm_invalid` compares each table entry with `brinfo[i]` instead of
  `brinfo[j]` (fhsm/fhsm.c:172). Reordered branches lose their watermarks
  (`SwappedLoseMarks`); `KeepsMarksIff` says who keeps them.
* `au_fhsm` passes the number of FHSM branches as the number of branches
  (fhsm/fhsm.c:281-283): `AllListedIff`.
* `move_failed` writes a leading NUL (fhsm/list.c:146-147). Once it has run on a
  file that is not empty, the records of the old list are never reached again:
  `ThenFatal`, `NeverReached`, `ContinuesIff`. Its "internal error" exit stands for
  a failed file that begins with a NUL (`Reversed`), and that is never written:
  `NeverExits`.
* A file refused with EROFS is to be skipped according to the comment
  (fhsm/mvdown.c:75-79), but `done` is set, so the run stops after it: `GoesOnIff`,
  `LastOnly`.
* `handle_sig` never returns SIGCHLD (fhsm/event.c:271-275), so the branch of the
  event loop for a child's exit status is dead. After a failed fork the entry with
  process id 0 stays and the loop never returns. The same holds after two children
  ended before the signal of the first was read, for SIGCHLD does not queue and only
  the child it names is waited for: `TwoChildren`. Those are the only two ways:
  `ReturnsIff`.
* A failed read of the ULOOP bitmap is "restored" from page pindex-1
  (sample/uloop/drivers/block/uloop.c:198-204), which can be the wrong page:
  `SwitchKeepsFlat`, `HarmfulRestore`. `ReadSafeExact` says when that does harm.
* A failed write-back of the bitmap at release is ignored
  (sample/uloop/drivers/block/uloop.c:518-521) and loses the bits that are only in
  the window: `ExecRefines`.
* The readme of ULOOP says that the bitmap size is rounded up to a page; the
  division by eight before that rounds down (sample/uloop/libuloop.c:188-197):
  `SizingExact`, `TooSmallPanics`.
* A ULOOP transfer that does not start on a page boundary may return stale bytes
  at its end: `UncoveredFails`. Those that do start there never do. The request that it
  makes inside the last page trips an assertion of the daemon that receives it
  (sample/uloop/ulobdev.c:50): `AbortsIff`.
* A daemon that dies with a ULOOP request in hand leaves its reader waiting: nobody asks
  again (`LostReached`, `AnsweredIff`). A new transfer can always be served all the same:
  `NeverStuck`.
* The base offset that `au_nftw` gives its callback is wrong for a root path with a
  slash in it (it is the slash, not the name behind it) and for the children of a
  root path with a slash at its end: `BaseIff`.
* When both processes of an mtab update die while they hold the lock, nobody ever
  gets it again (`OrphanReached`, `OrphanedStays`). With a table in place that is the
  only way to lose it: `FreedIff`.
* After a failed rdu_init, and in a buffer taken over from another DIR, npos is what
  it was while pos is null, so a readdir at a position other than 0 and below npos
  uses a null pointer (libau/rdu.c:75, libau/rdu_lib.c:118-140, 181-193):
  `Dir.ReadDir`.

## Contracts of what is outside

* `ulo_append`, `ulo_wait` and the other critical sections under a spinlock or the
  mutex are one step each. BUG_ON is enabled, as in the source. A torn write of a
  bitmap page leaves each bit as it was or as it was to be; what a failed read of
  such a page does is part of the model, and safety is claimed for runs in which
  it is safe in the exact sense of `ReadSafeExact`.
* AUFS_CTL_RDU returns some of the records that fit, at least one if the next one
  fits, and says `full` while there are more; `blk` exceeds any record.
* Entries of /etc/mtab have at least one byte per line. `addmntent` writes through
  to the file before it returns, as it does in glibc, so the new table is complete
  when it is renamed. An inode number is given out again only when no name and no
  process refers to it.
* The output of aufhsm-list ends with a NUL, if it is not empty.
* The sender of a SIGCHLD is a process with a positive id.
* The directory tree does not change during a walk, the callback's result depends
  on what it is shown, FTW_PHYS and FTW_ACTIONRETVAL are set, FTW_DEPTH is not, and
  lstat is not refused with EACCES (the source then reads an uninitialised stat).

## Model

| member | source | states |
|---|---|---|
| `UloopBitmap.SwitchKeepsFlat` | sample/uloop/drivers/block/uloop.c:164-212 | Moving the window changes the logical bitmap if and only if the read of the wanted page failed and the page then put in the window is not the one it stood for; BUG_ON fires exactly for the page just behind the file after a complete write-back |
| `UloopBitmap.RestoreTakesWrongPage` | sample/uloop/drivers/block/uloop.c:198-204 | The "restore" re-reads page pindex-1, so with a window two pages away a failed read changes the bitmap: a concrete case |
| `UloopBitmap.OnDisk` | sample/uloop/drivers/block/uloop.c:181-186 | After a complete write the disk holds the whole logical bitmap, even when the read that follows fails; a failed write touches the one page only |
| `UloopBitmap.ExecRefines` | sample/uloop/drivers/block/uloop.c:278-284 | Each of test, mark and release/setbmp acts on the flat bitmap as it should if and only if it spares the other bits: no harmful failed read, and a write-back at release that is complete or leaves the page as it was. The answer of a test is right in any case, and a failed one reads as set |
| `UloopBitmap.RunIsFlatBitmap` | sample/uloop/drivers/block/uloop.c:332-346 | Over every run of such operations a bit is set at the end exactly when it was set at the start or a mark of it succeeded: none lost, none invented |
| `UloopBitmap.BitmapDev.constructor` | sample/uloop/drivers/block/uloop.c:405-409 | setbmp leaves the window on page 0 with the contents of that page |
| `UloopBitmap.BitmapDev.Pindex` | sample/uloop/drivers/block/uloop.c:164-212 | The in-place window switch, with every early exit, is the transition that the lemmas are about |
| `UloopBitmap.BitmapDev.TestBit` | sample/uloop/drivers/block/uloop.c:340-346 | The locked test: the answer and the state are those of the logical operation |
| `UloopBitmap.BitmapDev.MarkBit` | sample/uloop/drivers/block/uloop.c:279-284 | The locked update: a bit is set in the window only after the switch worked |
| `UloopBitmap.BitmapDev.Release` | sample/uloop/drivers/block/uloop.c:513-516 | What release leaves in the file is the logical bitmap, or a failed write of the window page |
| `UloopBitmap.BitmapDev.Reopen` | sample/uloop/drivers/block/uloop.c:513-516 | A release and setbmp on what it left are the one operation of a run |
| `UloopDaemon.RoundUpProps` | sample/uloop/libuloop.c:177-181 | The padded size is the least multiple of the page that is not smaller |
| `UloopDaemon.RangeProps` | sample/uloop/ulobdev.c:50-58 | After alignment and clipping the range to copy is not empty, ends at the end of the request or of the target, and stays inside the target |
| `UloopDaemon.StoredAt` | sample/uloop/ulobdev.c:50-65 | Byte by byte: from the page of the first byte to the end of the request or of the target the cache is the target, and everywhere else what it was |
| `UloopDaemon.AssertionFailsIff` | sample/uloop/ulobdev.c:50 | A request for one page that begins inside the cache trips the assertion if and only if it begins inside the last page but not at its boundary |
| `UloopDaemon.Store` | sample/uloop/ulobdev.c:43-77 | The cache is changed exactly in the aligned and clipped range, only when both mappings worked; the assertion at the head aborts exactly for requests beyond the cache |
| `UloopDaemon.InitSizes` | sample/uloop/libuloop.c:177-201 | The two EINVAL exits for sizes that are not whole pages are never taken |
| `UloopDaemon.BitmapSizeLeast` | sample/uloop/libuloop.c:188-197 | The size of the bitmap is the least number of whole pages for an eighth of the pages, rounded down, and at least one |
| `UloopDaemon.SizingExact` | sample/uloop/libuloop.c:188-201 | The bitmap file has a bit for each of N pages if and only if N mod 8 = 0, or N/8 < P, or N/8 mod P is not 0 |
| `UloopDaemon.SplitInFile` | sample/uloop/drivers/block/uloop.c:336-338 | Then every page number splits into a bitmap page inside the file; otherwise the last page of the cache lands exactly one page behind it |
| `UloopDaemon.SplitInjective` | sample/uloop/drivers/block/uloop.c:303-338 | No two pages of the cache share a bit |
| `UloopProtocol.OwnersKept` | sample/uloop/drivers/block/uloop.c:78-137 | Every step of every reader and daemon keeps each queue element owned exactly once, by a queue or by one reader: no leak, no double queueing, no use after free, on the put-back path too |
| `UloopProtocol.UnionKept` | sample/uloop/drivers/block/uloop.c:216-290 | The union member that is read is the one last written |
| `UloopProtocol.InvKept` | sample/uloop/drivers/block/uloop.c:423-470 | Every step whose failed bitmap reads are safe keeps the whole invariant: a set bit, a queued answer and a page passed by a reader all stand for a page of the cache that equals the target |
| `UloopProtocol.RunSafe` | sample/uloop/drivers/block/uloop.c:216-374 | ... and so does every run, for any number of readers and daemons and any interleaving |
| `UloopProtocol.Delivered` | sample/uloop/drivers/block/uloop.c:329-370 | A transfer that returned zero has the target's data for every byte asked for, if its pages cover them |
| `UloopProtocol.AlignedIsCovered` | sample/uloop/drivers/block/uloop.c:320-360 | A transfer that starts on a page boundary is covered |
| `UloopProtocol.AbortsIff` | sample/uloop/ulobdev.c:50 | In every state that keeps the invariant a daemon aborts exactly for such a request: one that is not aligned, in the last page |
| `UloopProtocol.LoopPages` | sample/uloop/drivers/block/uloop.c:333-360 | The loop stops after the rounded-up size; the pages it visits miss the last byte exactly when the transfer is not covered |
| `UloopProtocol.UncoveredFails` | sample/uloop/drivers/block/uloop.c:333-360 | For every transfer within the device that is not covered there is a run that returns zero with a wrong byte, the first one of the page that the loop does not reach: the condition is exact |
| `UloopProtocol.NoPanic` | sample/uloop/drivers/block/uloop.c:186-190 | With a bit for each page no reachable step trips BUG_ON |
| `UloopProtocol.SizedBitmap` | sample/uloop/libuloop.c:188-201 | The file that ulo_init makes is such a bitmap whenever the sizing condition holds |
| `UloopProtocol.TooSmallPanics` | sample/uloop/drivers/block/uloop.c:186-190 | ... and when it does not hold there is a run that trips BUG_ON |
| `UloopProtocol.HarmfulRestore` | sample/uloop/drivers/block/uloop.c:198-204 | For every page size, target that needs a third page of bits and bitmap that has one, a run from a fresh device in which page pindex-1 is put back and an aligned transfer then returns zero with a wrong byte |
| `UloopProtocol.LieIsRead` | sample/uloop/drivers/block/uloop.c:191-205 | After a failed read, every set bit in the window that stands for a page not filled leads to wrong data: a continuation without further faults ends with an aligned transfer of that page that returned zero |
| `UloopProtocol.ReadSafeExact` | sample/uloop/drivers/block/uloop.c:191-205 | A failed read of the bitmap is safe if and only if the page left in the window has no such bit: just then no continuation ends with a covered transfer that returned a wrong byte |
| `UloopProtocol.StoreFills` | sample/uloop/ulobdev.c:50-65 | The store of one requested page fills that page and spoils no other |
| `UloopProtocol.BitsAfterSwitch` | sample/uloop/drivers/block/uloop.c:340-346 | A switch keeps "a set bit stands for a filled page", for the window and the disk, if and only if its read did not fail or is safe in the sense above; a switch that keeps the flat bitmap is safe |
| `UloopProtocol.BitsAfterMark` | sample/uloop/drivers/block/uloop.c:278-284 | ... and so does marking the page that was answered for |
| `UloopQueues.StepInOrder` | sample/uloop/drivers/block/uloop.c:78-137 | What a queue holds and what a step puts into it is what the step takes out and what the queue holds then, in this order: first in, first out, for READY, RCVREQ and SNDRES, an element put back counting as new |
| `UloopQueues.NoOvertaking` | sample/uloop/drivers/block/uloop.c:216-290 | So an element that waits keeps its place or moves up by one, when the first one is taken |
| `UloopQueues.RunInOrder` | sample/uloop/drivers/block/uloop.c:78-137 | ... and over every run what came out is what was in and then what was put in, in this order |
| `UloopQueues.EarlierFirst` | sample/uloop/drivers/block/uloop.c:443-470 | Of two requests that wait the earlier one is received first, whatever the others do; the same for daemons that are ready and for answers |
| `UloopQueues.WaitsUnchanged` | sample/uloop/drivers/block/uloop.c:216-290 | A request or an answer does not change while it waits |
| `UloopProgress.FailsIff` | sample/uloop/drivers/block/uloop.c:216-374 | A transfer fails if and only if it is interrupted, its daemon cannot be signalled, or the wanted page of the bitmap neither is in the window nor gets there |
| `UloopProgress.DiesIff` | sample/uloop/libuloop.c:59-80 | A daemon ends if and only if it is killed, finds no request, cannot copy it, or its store fails or aborts |
| `UloopProgress.DeadStays` | sample/uloop/libuloop.c:47-81 | ... and only a new one takes its place |
| `UloopProgress.AnsweredIff` | sample/uloop/drivers/block/uloop.c:268-276 | A reader that waits for a page can get an answer without any other reader if and only if a request for that page waits, a daemon is at it, or an answer waits |
| `UloopProgress.LostStays` | sample/uloop/drivers/block/uloop.c:268-276 | ... so after the request was lost it waits for ever, whatever daemons come |
| `UloopProgress.LostReached` | sample/uloop/drivers/block/uloop.c:443-470 | And a request is lost: for every page that is not marked there is a run in which a daemon receives the request and dies |
| `UloopProgress.NeverStuck` | sample/uloop/drivers/block/uloop.c:293-374 | In every state that any readers and daemons reach by steps with safe failed reads every new transfer within the device can be carried to its end, past the requests and answers left behind; its data is the target's if its pages cover it |
| `RduNames.StrCmpZero` | libau/rdu_lib.c:210 | Names that compare equal are equal |
| `RduNames.StrCmpTrans` | libau/rdu_lib.c:210 | The order of names is transitive |
| `RduNames.StrCmpFirst` | libau/rdu_lib.c:210 | It is that of the first bytes that differ, a shorter name first |
| `RduNames.WhIff` | libau/rdu_lib.c:312-314 | A whiteout is the prefix and something behind it; a file named just ".wh." is none |
| `RduNames.ComparTrans` | libau/rdu_lib.c:205-243 | The two comparators that build trees are transitive on the names they are used with |
| `RduNames.ComparFlip` | libau/rdu_lib.c:205-243 | ... and antisymmetric, with zero just for equal names: total orders |
| `RduNames.SearchAgrees` | libau/rdu_lib.c:217-230 | Looking a real name up with the first whiteout comparator walks the tree as looking its whiteout up with the second one would |
| `RduNames.SearchFlips` | libau/rdu_lib.c:217-230 | ... with either argument first, sign reversed |
| `RduNames.InsertIsUnion` | libau/rdu_lib.c:245-276 | Insertion into an ordered tree adds the one name and keeps the order |
| `RduNames.Side` | libau/rdu_lib.c:245-276 | A name that is in an ordered tree is on the side that the comparator points to |
| `RduCompact.ToBelowFrom` | libau/rdu_lib.c:334-344 | No record is moved up: its place lies at or below where it was, for all record lengths |
| `RduCompact.RecLenExact` | libau/linux/aufs_type.h:282-287 | The length of a record is the multiple of eight that holds header, name and terminator with less than eight bytes to spare |
| `RduCompact.MoveReads` | libau/rdu_lib.c:340-344 | No move overwrites a record that is still to be moved |
| `RduCompact.MoveKeeps` | libau/rdu_lib.c:340-344 | ... nor one that is already in place |
| `RduCompact.MoveStep` | libau/rdu_lib.c:341 | After each move one more record is in place with its bytes |
| `RduCompact.MemMove` | libau/rdu_lib.c:341 | The overlapping copy moves exactly the bytes of the record |
| `RduCompact.Compact` | libau/rdu_lib.c:334-344 | In the end all selected records are contiguous from the start of the buffer, in order, unchanged, and pos[i] points at the i-th |
| `RduMerge.SelExact` | libau/rdu_lib.c:308-318 | Just the selected records are kept, each once, in scan order |
| `RduMerge.VisibleMeans` | libau/rdu_lib.c:245-276 | A scan shows each name once, in the order of the first mention and with the record of that: exactly the names with a record that no whiteout of the name precedes, and with shwh exactly the whiteouts as well |
| `RduMerge.SelectedReal` | libau/rdu_lib.c:245-261 | The two trees answer whether a real record is kept |
| `RduMerge.SelectedWh` | libau/rdu_lib.c:263-276 | The whiteout tree answers whether a whiteout is kept |
| `RduMerge.RealAppended` | libau/rdu_lib.c:245-261 | After a real record the trees hold what they should for the next one |
| `RduMerge.WhAppended` | libau/rdu_lib.c:263-276 | ... and after a whiteout |
| `RduMerge.FlagsOnly` | libau/rdu_lib.c:308-318 | The scan changes nothing in the records but their wh field |
| `RduMerge.PlanFits` | libau/rdu_lib.c:334-344 | The selected records are a legal input for the compaction |
| `RduMerge.MovedIsMerged` | libau/rdu_lib.c:325-344 | A compacted buffer is the packed buffer of the visible names |
| `RduMerge.MergedRecord` | libau/rdu_lib.c:334-344 | Each visible record has the bytes that the kernel wrote, but for wh, which says whether it is a whiteout |
| `RduMerge.Rdu.Call` | libau/rdu_lib.c:205-243 | Two comparators tell through do_store whether the names differed, the third leaves it alone |
| `RduMerge.Rdu.TSearch` | libau/rdu_lib.c:253-255 | After tsearch do_store is set exactly when the key was new, on an empty tree as well |
| `RduMerge.Rdu.TFind` | libau/rdu_lib.c:250 | tfind finds a name exactly when its whiteout is in the whiteout tree, and leaves do_store alone |
| `RduMerge.Rdu.EntAppend` | libau/rdu_lib.c:245-261 | A real record is stored exactly when it is to be kept |
| `RduMerge.Rdu.EntAppendWh` | libau/rdu_lib.c:263-276 | A whiteout is stored exactly when it is to be kept |
| `RduMerge.Rdu.ScanOne` | libau/rdu_lib.c:308-318 | One turn of the scan: flag, tree, pointer, next record |
| `RduMerge.Rdu.Scan` | libau/rdu_lib.c:299-320 | pos holds the places of the kept records, in order |
| `RduMerge.Rdu.Squeeze` | libau/rdu_lib.c:325-344 | Both ends of rdu_merge, with and without anything dropped, leave the packed visible records |
| `RduMerge.Rdu.Merge` | libau/rdu_lib.c:283-348 | rdu_merge: the buffer holds the visible records packed, npos counts them and pos points at them |
| `RduInit.ConcatSplit` | libau/rdu_lib.c:374-404 | What several calls of the kernel return is one sequence of records |
| `RduInit.Kernel.GetEnt` | libau/linux/aufs_type.h:299-319 | The contract of AUFS_CTL_RDU: some of the records that fit, from tail on, and full just while there are more |
| `RduInit.Realloc` | libau/rdu_lib.c:386 | A larger block with the old contents, possibly elsewhere |
| `RduInit.GotMore` | libau/rdu_lib.c:374-404 | Records fetched behind those that are there extend the packed sequence |
| `RduInit.Fetch` | libau/rdu_lib.c:376-381 | One call brings at least one record while there are any, without gap or overwrite |
| `RduInit.Grow` | libau/rdu_lib.c:374-404 | The loop keeps (param.ent - p->ent) + param.sz = p->sz across every realloc; it fails only if a call failed, and else ends with all records packed in order |
| `RduDir.RecordInConcat` | libau/rdu_lib.c:307-318 | Record i begins where the lengths of the earlier ones put it |
| `RduDir.GotIsPacked` | libau/rdu_lib.c:406-408 | What rdu_init collected is a legal input of rdu_merge |
| `RduDir.CallsFrom` | libau/rdu.c:74-101 | The i-th readdir from a position returns the i-th entry from there, or the end, and moves the position by one, whatever the directory shows meanwhile |
| `RduDir.ScanOnce` | libau/rdu.c:74-101 | After a rewind a scan is a snapshot: it returns each entry that the first call found exactly once, in order, and then the end for ever, however the directory changes in between |
| `RduDir.OffsetIs` | libau/rdu.c:33 | A seek to the d_off of an entry returns to that entry |
| `RduDir.StrCpy` | libau/rdu.c:38 | The name in the record is copied up to its terminator |
| `RduDir.Dir.Init` | libau/rdu_lib.c:350-408 | After rdu_init the DIR shows the visible names; after a failure it shows nothing, and npos counts what had been fetched |
| `RduDir.Dir.Pos` | libau/rdu.c:26-42 | rdu_pos: entry, offset and record length, or the end |
| `RduDir.Dir.ReadDir` | libau/rdu.c:65-101 | One readdir is one step of the cursor; the directory is read anew at position 0; a failure leaves the position alone. A null pos is used exactly at a position other than 0 that is below an npos left over from a failure or an earlier use |
| `RduDir.Dir.Refresh` | libau/rdu.c:74-83 | The directory is read at position 0 and when npos is 0, and else left as it is |
| `RduDir.Dir.Rewind` | libau/rdu.c:74-75 | The position becomes 0 and nothing else changes; the next readdir is safe |
| `RduRegistry.LiveCount` | libau/rdu_lib.c:142-179 | There are at most as many live buffers as slots, and as many when no slot is closed |
| `RduRegistry.LiveUpdate` | libau/rdu_lib.c:159-164 | A revived slot adds one live descriptor, still all distinct |
| `RduRegistry.LiveNew` | libau/rdu_lib.c:165-166 | A new slot is made only when every slot is live, so the count of live buffers reaches a new high |
| `RduRegistry.LiveClose` | libau/rdu_lib.c:181-193 | A closed slot removes one |
| `RduRegistry.Registry.constructor` | libau/rdu_lib.c:72-89 | An empty registry with RDU_STEP slots |
| `RduRegistry.Registry.Append` | libau/rdu_lib.c:91-114 | The array grows by RDU_STEP without losing a buffer; every index stays inside |
| `RduRegistry.Registry.Find` | libau/rdu_lib.c:153-164 | The first slot with the descriptor |
| `RduRegistry.Registry.Revive` | libau/rdu_lib.c:159-164 | A closed buffer is taken over and no other touched |
| `RduRegistry.Registry.New` | libau/rdu_lib.c:118-140 | rdu_cur stays the largest number of buffers ever live at once |
| `RduRegistry.Registry.BufLock` | libau/rdu_lib.c:142-179 | The buffer of that descriptor, found, revived or new; the live descriptors gain just this one |
| `RduRegistry.Registry.Free` | libau/rdu_lib.c:181-193 | The live descriptors lose just this one |
| `FhsmList.LastIs` | fhsm/list.c:340-352 | The last record is found by the last NUL before it, whatever precedes it |
| `FhsmList.Split` | fhsm/list.c:146-160 | Every NUL-terminated file is the concatenation of its records |
| `FhsmList.OneWay` | fhsm/list.c:146-160 | ... and of no other ones |
| `FhsmList.FnameOne` | fhsm/list.c:340-361 | The top record, its size and name fields behind its first two spaces, and the exit exactly for a record without them |
| `FhsmList.WellFormedIff` | fhsm/list.c:354-361 | Those are the records with two spaces |
| `FhsmList.TurnAt` | fhsm/list.c:151-156 | memrchr and strlen delimit the last of the remaining records, exact to the byte |
| `FhsmList.Shrink` | fhsm/list.c:150-160 | One turn of the loop takes off exactly the last record |
| `FhsmList.CopyOne` | fhsm/list.c:150-160 | ... and appends it to what was copied, inside the buffer |
| `FhsmList.Reversed` | fhsm/list.c:139-163 | The copy is one NUL and the failed records in reverse; for an arbitrary file the "internal error" exit is taken if and only if the first record is empty |
| `FhsmMvdown.Conserved` | fhsm/mvdown.c:196-237 | In every run the old list is the new list and the popped records in reverse; the failed file grows by exactly the popped records that were busy with one link |
| `FhsmMvdown.LastOnly` | fhsm/mvdown.c:279-293 | Only the last attempt of a run can have finished a file or failed; every other attempt shortens the list |
| `FhsmMvdown.GoesOnIff` | fhsm/mvdown.c:73-126 | The loop goes on just behind a busy or an invalid file with something left below it: EROFS ends the run, against its comment |
| `FhsmMvdown.Fate` | fhsm/mvdown.c:46-145 | What becomes of the top record for each outcome: it stays after an exit or an error, goes to the failed file when busy with one link, and is dropped otherwise |
| `FhsmMvdown.RetriedInOrder` | fhsm/list.c:146-173 | Retried records come off first, in the order in which they failed |
| `FhsmMvdown.ThenFatal` | fhsm/list.c:340-361 | What is then on top is the leading NUL: an empty record, on which the child exits, with the list unchanged |
| `FhsmMvdown.BuriedStays` | fhsm/mvdown.c:279-293 | No run takes that record off |
| `FhsmMvdown.NeverReached` | fhsm/list.c:301-318 | ... and no later run either: the records of the old list are never tried again, whatever happens |
| `FhsmMvdown.NeverExits` | fhsm/list.c:161-163 | Over all runs of the program from files that it can have written, such as none, the "internal error" exit is never taken: only well-formed records are appended to the failed file, and they begin with no NUL |
| `FhsmMvdown.TurnOk` | fhsm/mvdown.c:196-237 | Each turn keeps both files terminated and the failed file without a leading NUL |
| `FhsmMvdown.SessionOk` | fhsm/list.c:255-337 | ... and so does each run of the child, move_failed included |
| `FhsmMvdown.ListedRecs` | fhsm/list.c:296-318 | au_list loses no record: the failed file is left alone when the list is generated anew; else its records, in reverse and under an empty one, are on the list |
| `FhsmMvdown.SessionConserves` | fhsm/list.c:255-337 | Record by record over a whole run of the child, au_list included: list and failed file before, what was generated and what was popped make up list and failed file after; each old record is still in one of them or was popped |
| `FhsmMvdown.ContinuesIff` | fhsm/list.c:296-312 | A left-over list can be continued, as the comment promises, exactly when nothing had failed |
| `FhsmMvdown.EndedRuns` | fhsm/mvdown.c:279-293 | What the loop does, whatever it meets, is such a run |
| `FhsmMvdown.RunsEnded` | fhsm/mvdown.c:279-293 | ... and every run is what the loop does for some inputs |
| `FhsmMvdown.MadeIff` | fhsm/mvdown.c:279-293 | When the loop ends: at the first stop, or behind the first attempt that was not skipped or left the branch within its watermark |
| `FhsmMvdown.Mover.MoveFailed` | fhsm/list.c:116-174 | The bytes of both files afterwards |
| `FhsmMvdown.Mover.List` | fhsm/list.c:296-318 | Which branch au_list takes |
| `FhsmMvdown.Mover.DoMvdown1` | fhsm/mvdown.c:46-145 | Error, done and the failed file for each errno; EROFS counts as done |
| `FhsmMvdown.Mover.DoMvdown` | fhsm/mvdown.c:196-237 | One record popped and the tri-state result; listsz stays the size and falls strictly |
| `FhsmMvdown.Mover.Child` | fhsm/mvdown.c:279-293 | The loop, and that it ends |
| `FhsmWmark.Pigeonhole` | fhsm/fhsm.c:208-221 | Entries with distinct ids that lack one of the branch ids are fewer than the branches |
| `FhsmWmark.FreeEntry` | fhsm/fhsm.c:208-221 | So there is a free entry whenever one is looked for: the "should not happen" exit is never taken |
| `FhsmWmark.KnownIds` | fhsm/fhsm.c:183-207 | Every id in the table is that of a branch, and a branch is found exactly if its entry survived |
| `FhsmWmark.ReinitStep` | fhsm/fhsm.c:191-222 | One branch of the reconciliation, with the inherited marks |
| `FhsmWmark.AllSurvive` | fhsm/fhsm.c:281-283 | If nothing was invalid there is nothing to reconcile |
| `FhsmWmark.ExactIds` | fhsm/fhsm.c:182-223 | When all scanned branches take part the table lists exactly their ids, each once |
| `FhsmWmark.KeepsMarksIff` | fhsm/fhsm.c:165-177 | The inner loop compares with branch i, not j: an id keeps its watermarks if and only if its entry stood at the place of its branch, or gets the same ones again |
| `FhsmWmark.SwappedLoseMarks` | fhsm/fhsm.c:171-172 | Two branches in the other order: both lose their marks, though both ids are still there |
| `FhsmWmark.Inherited` | fhsm/fhsm.c:208-216 | A branch whose entry is not at its place gets both marks of the nearest branch before it whose entry is |
| `FhsmWmark.GetsDefault` | fhsm/fhsm.c:208-216 | ... and the default ones when there is none |
| `FhsmWmark.AllListedIff` | fhsm/fhsm.c:281-283 | nfhsm is passed as the number of branches: all FHSM branches are listed if and only if none is further down the mount |
| `FhsmWmark.ExpectedRatios` | fhsm/fhsm.c:208-216 | 0 <= UPPER <= LOWER <= 1 holds for every entry of the reconciled table if it held for the old one |
| `FhsmWmark.FreshRatios` | fhsm/fhsm.c:32-41 | ... and for a new table |
| `FhsmWmark.FreshIs` | fhsm/fhsm.c:146-149 | A new table has an entry with the default marks for each branch that takes part, and no other |
| `FhsmWmark.OrderedRatios` | fhsm/comm.h:146-150 | ... and for a table in another order |
| `FhsmWmark.PlaceSorts` | fhsm/comm.h:146-150 | Sorting is a permutation in order: one insertion |
| `FhsmWmark.SortedByOk` | fhsm/comm.h:146-150 | ... and all of them |
| `FhsmWmark.LeastFirst` | fhsm/comm.h:146-150 | ... with the least id first |
| `FhsmWmark.Search` | fhsm/comm.h:152-168 | On a sorted table binary search finds an entry exactly when linear search does, and the same one when the id is not repeated |
| `FhsmWmark.EditKeeps` | fhsm/aufhsm.c:151-207 | An edit of one entry keeps order and ratios |
| `FhsmWmark.EditAllKeeps` | fhsm/aufhsm.c:194-206 | ... and so does an edit of all |
| `FhsmWmark.EditedOnly` | fhsm/aufhsm.c:170-173 | An edit changes the one mark of the one entry |
| `FhsmWmark.EditedAllIs` | fhsm/aufhsm.c:194-206 | ... and the edit of all is that of each |
| `FhsmWmark.EditedOver` | fhsm/aufhsm.c:166-173 | What an edit means to the daemon: the branch is over when more than UPPER per cent of the blocks, or of the inodes, are used; UPPER 0 switches the test of the inodes off |
| `FhsmWmark.RatioIsOk` | fhsm/aufhsm.c:158-168 | The percentages that are accepted are just those that make ratios in order |
| `FhsmWmark.DefaultOver` | fhsm/fhsm.c:36-40 | With the default marks a branch is over when less than a quarter of its blocks is free, whatever its inodes |
| `FhsmWmark.NewUsage` | fhsm/mvdown.c:148-171 | For the table that au_fhsm creates the usage test holds exactly for the branches that take part and have less than a quarter free |
| `FhsmWmark.TestUsage` | fhsm/mvdown.c:148-171 | Over its watermark, by the entry of the branch; a branch without entry never is. The table it needs is the one that Update and Create leave |
| `FhsmWmark.Fhsm.Create` | fhsm/fhsm.c:140-149 | For any count of branches: the new table lists the FHSM branches with the default marks and then free entries, no id twice; the loop would run over the end of the array exactly when more branches take part than were counted |
| `FhsmWmark.Nfhsm` | br.c:66-77 | au_nfhsm counts the branches that wm_init is called for |
| `FhsmWmark.Fhsm.CreateCounted` | fhsm/aufhsm.c:309-319 | The only caller passes the count of the same branches: no overrun and no free entry |
| `FhsmWmark.Fhsm.New` | fhsm/fhsm.c:260-287 | au_fhsm when there was no table: the default entries of the branches that take part, sorted, no id twice |
| `FhsmWmark.ReconciledNoneTwice` | fhsm/fhsm.c:182-223 | A reconciled table repeats no id |
| `FhsmWmark.FreshNoneTwice` | fhsm/fhsm.c:146-149 | ... nor does a new one |
| `FhsmWmark.OrderedNoneTwice` | fhsm/comm.h:146-150 | ... nor one in another order |
| `FhsmWmark.Fhsm.Map` | fhsm/fhsm.c:228-250 | The table found in shared memory with an intact signature |
| `FhsmWmark.ResizedIs` | fhsm/fhsm.c:48-120 | Shrinking keeps the first entries, growing adds free ones behind the old |
| `FhsmWmark.Fhsm.Resize` | fhsm/fhsm.c:48-120 | Entries kept as far as they fit, new ones free |
| `FhsmWmark.Fhsm.Invalid` | fhsm/fhsm.c:155-180 | Which entries are freed, and that zero is returned exactly when none is |
| `FhsmWmark.Fhsm.Reinit` | fhsm/fhsm.c:182-223 | Never fails, and leaves every branch its expected entry |
| `FhsmWmark.Fhsm.One` | fhsm/fhsm.c:192-221 | One turn of it in place |
| `FhsmWmark.Fhsm.Find` | fhsm/comm.h:170-180 | The first entry with the id |
| `FhsmWmark.Fhsm.Sort` | fhsm/comm.h:146-150 | The array becomes a sorted permutation of itself; the ratios stay, and no id is repeated that was not |
| `FhsmWmark.Fhsm.Update` | fhsm/fhsm.c:273-287 | au_fhsm on an existing table: reconciled, then a sorted permutation of that, with its ratios kept and no id twice; it always succeeds |
| `FhsmWmark.Fhsm.EditOne` | fhsm/aufhsm.c:181-193 | Only the marks of the one entry change; the exit is taken exactly for an entry that exists and illegal percentages; order and ratios stay |
| `FhsmWmark.Fhsm.EditAll` | fhsm/aufhsm.c:194-206 | The marks go down the whole table; order and ratios stay |
| `FhsmDaemon.InitListHead` | fhsm/linux-list.h:19-23 | An empty ring |
| `FhsmDaemon.LinkBetween` | fhsm/linux-list.h:25-33 | Four links are set, and no other when the neighbours differ |
| `FhsmDaemon.ListAdd` | fhsm/linux-list.h:35-38 | The ring of the node and then the old ones |
| `FhsmDaemon.ListDel` | fhsm/linux-list.h:40-56 | The ring without the node, whose links are cleared |
| `FhsmDaemon.OneChild` | fhsm/mvdown.c:312-337 | Every live child has exactly one entry, and no branch has two children |
| `FhsmDaemon.BookAdd` | fhsm/mvdown.c:318-337 | A new entry keeps that, with the child of a fork that worked or without one |
| `FhsmDaemon.BookDel` | fhsm/event.c:252-261 | ... and so does the removal of the entry of a child that ended |
| `FhsmDaemon.BookUnknown` | fhsm/event.c:262-270 | A signal of an unknown child concerns no entry |
| `FhsmDaemon.BookEmpty` | fhsm/event.c:364 | An empty list means that no child is left |
| `FhsmDaemon.RanKeeps` | fhsm/mvdown.c:300-342 | Running a branch keeps entries and children one for one |
| `FhsmDaemon.RanAllKeeps` | fhsm/event.c:143-161 | ... and so does a whole report |
| `FhsmDaemon.RanStarts` | fhsm/mvdown.c:300-342 | A branch is in operation afterwards if it was or is reported over its watermark; a child is started just for the latter, and the fork that fails is the only error |
| `FhsmDaemon.RanAllStarts` | fhsm/event.c:143-161 | After a whole report just the branches over their watermarks, and those that were already, are in operation |
| `FhsmDaemon.ReapedKeeps` | fhsm/event.c:252-270 | ... and the end of a child, which never removes the entry of a failed fork |
| `FhsmDaemon.HandledKeeps` | fhsm/event.c:372-403 | Every event keeps it |
| `FhsmDaemon.LoopedKeeps` | fhsm/event.c:357-407 | Over every run: no branch has two children, the loop returns only with no child left, and never again once a fork has failed |
| `FhsmDaemon.StopsIff` | fhsm/event.c:227-283 | The daemon is stopped by an exit message, by any signal but SIGHUP and SIGCHLD, by a descriptor that cannot be read and by a failed fork, and by nothing else; SIGHUP changes nothing at all |
| `FhsmDaemon.ReturnsWhenAsked` | fhsm/event.c:357-407 | So the loop returns only if somebody asked for it: after a failed fork it never does |
| `FhsmDaemon.IdleReturns` | fhsm/event.c:357-407 | ... and an idle daemon returns as soon as somebody asks |
| `FhsmDaemon.ReturnsIff` | fhsm/event.c:357-407 | From any moment the loop can still return if and only if no entry is that of a failed fork and no child ended while the signal of another one waited |
| `FhsmDaemon.StepKeeps` | fhsm/event.c:236-275 | Each end of a child and each event keeps the books and the signals; a child whose signal was merged keeps its entry |
| `FhsmDaemon.StuckStays` | fhsm/event.c:357-407 | ... so the loop never returns after that, whatever arrives |
| `FhsmDaemon.TwoChildren` | fhsm/event.c:236-275 | Two healthy children that end between two reads are enough for it |
| `FhsmDaemon.StoppedStartsNone` | fhsm/event.c:389-396 | After a stop was asked for no child is started |
| `FhsmDaemon.Daemon.Find` | fhsm/mvdown.c:313-316 | The walk round the ring finds the first entry, or comes round |
| `FhsmDaemon.Daemon.AddEntry` | fhsm/mvdown.c:318-325 | One node is linked in at the head |
| `FhsmDaemon.Daemon.Fork` | fhsm/mvdown.c:318-337 | The entry is there before the fork, and stays with pid 0 when it fails |
| `FhsmDaemon.Daemon.MvdownRun` | fhsm/mvdown.c:300-342 | au_mvdown_run in the daemon, in place |
| `FhsmDaemon.Daemon.Starts` | fhsm/mvdown.c:300-316 | The usage test and the search of the list |
| `FhsmDaemon.Daemon.Unlink` | fhsm/event.c:256-257 | The entry leaves the list |
| `FhsmDaemon.Daemon.Drop` | fhsm/event.c:254-270 | ... and its child is waited for |
| `FhsmDaemon.Daemon.Reap` | fhsm/event.c:252-270 | The SIGCHLD case, known child or not |
| `FhsmDaemon.Daemon.HandleSig` | fhsm/event.c:227-283 | The answer for every signal; it is never SIGCHLD |
| `FhsmDaemon.Daemon.HandleMsg` | fhsm/event.c:185-222 | Which messages stop the daemon and which are errors |
| `FhsmDaemon.Daemon.HandleFhsm` | fhsm/event.c:122-178 | Reported branches in turn until a fork fails |
| `FhsmDaemon.Daemon.Handle` | fhsm/event.c:372-403 | One event; the branch for a child's exit status is dead |
| `FhsmDaemon.Daemon.EventRound` | fhsm/event.c:372-403 | The events of one epoll_wait |
| `FhsmDaemon.Daemon.Loop` | fhsm/event.c:357-407 | The whole loop, in place |
| `MtabUpdate.Stream.GetMntEnt` | mtab.c:105-107 | The next entry, comments passed over, and the position behind its line |
| `MtabUpdate.Append` | mtab.c:70-85 | The old entries and the new one |
| `MtabUpdate.FindLast` | mtab.c:102-108 | The position behind the last line for the mount point, or -1 |
| `MtabUpdate.LineOfMatch` | mtab.c:105-108 | That line holds the last entry with the directory |
| `MtabUpdate.TellAt` | mtab.c:113 | A file position names one line |
| `MtabUpdate.ReplacedIs` | mtab.c:112-121 | Copying with one line replaced is replacing one entry |
| `MtabUpdate.ReplaceOne` | mtab.c:112-121 | One turn of the second pass: the line is met once |
| `MtabUpdate.Replace` | mtab.c:111-123 | The second pass meets the position of the first, so the "internal error" exit is unreachable |
| `MtabUpdate.AppliedIff` | mtab.c:87-132 | For every table: a mount keeps all entries and adds one behind them; a remount replaces just the last one with the directory, in its place, and is a mount when there is none. Nothing else satisfies that |
| `MtabUpdate.UpdateMtab` | mtab.c:87-132 | On remount only the last entry for the directory is replaced, all others in place; else, or when none matches, the new one is appended |
| `MtabLock.InvKept` | mtab.c:136-225 | Every step of every process keeps the invariant |
| `MtabLock.InvReached` | mtab.c:136-225 | ... and so does every run, with any number of processes, deaths, and reuse of pids and inodes |
| `MtabLock.InodeTest` | mtab.c:204-216 | The inode test is exact while the file is held open: the lock file has the number if and only if the own child made it |
| `MtabLock.FiveTries` | mtab.c:47-60 | A child calls link at most five times, and gives up on its own only after five failures |
| `MtabLock.Exclusion` | mtab.c:47-68 | At most one process is between link and rename |
| `MtabLock.OwnLockOnly` | mtab.c:47-68 | The lock file is renamed or unlinked only by the pair that made it, and nothing else ever removes it |
| `MtabLock.Serializable` | mtab.c:177-221 | In every run the table is the old one with the committed updates applied in the order of the lock; a run commits once if its child exited, and never else; a parent that is about to close has given the lock back |
| `MtabLock.Sections` | mtab.c:47-68 | Taking the lock is followed by the commit or the drop of the same run: the sections do not overlap |
| `MtabLock.Undisturbed` | mtab.c:136-225 | Whenever the lock is free a new call can run to its end, commits, and leaves neither lock nor pid file |
| `MtabLock.OrphanedStays` | mtab.c:192-218 | Once the parent is gone and the child dead, or bound to die because there is no table, the lock stays for ever and the table never changes again |
| `MtabLock.OrphanReached` | mtab.c:177-196 | From every initial state such a state is reached, by the death of both behind the link |
| `MtabLock.FreedIff` | mtab.c:136-225 | In any state the lock can come free again if and only if no run is orphaned with it |
| `Nftw.Joined` | extlib/non-glibc/au_nftw.c:90-93 | The first result that is not zero ends the walk, wherever it is |
| `Nftw.NextName` | extlib/non-glibc/au_nftw.c:103-119 | What one name of a directory adds to the walk: nothing for "." and "..", an error when it is too long, else the walk below it |
| `Nftw.NodeFirst` | extlib/non-glibc/au_nftw.c:90-93 | A node comes before what is below it; FTW_SKIP_SUBTREE leaves that out for directories only |
| `Nftw.FileVerdict` | extlib/non-glibc/au_nftw.c:90-93 | For anything but a readable directory the result of fn ends the walk there, FTW_SKIP_SUBTREE too |
| `Nftw.StrCpy` | extlib/non-glibc/au_nftw.c:113-114 | The copy and its terminator, and nothing behind it |
| `Nftw.Walker.CallFn` | extlib/non-glibc/au_nftw.c:90 | fn sees the path that is in the buffer |
| `Nftw.Walker.Append` | extlib/non-glibc/au_nftw.c:108-114 | The buffer becomes the child's path, within PATH_MAX + 1 bytes |
| `Nftw.Walker.IsRepeated` | extlib/non-glibc/au_nftw.c:95-97 | The chain of ancestors is searched |
| `Nftw.Walker.DoNftw` | extlib/non-glibc/au_nftw.c:52-131 | fn is called in exactly the preorder of the pruned tree up to the first result that is not zero, which is returned; on zero the path and its terminator are restored |
| `Nftw.Walker.Under` | extlib/non-glibc/au_nftw.c:95-130 | Repeated ancestors, the depth limit, refused and failed opendir |
| `Nftw.Walker.ReadNames` | extlib/non-glibc/au_nftw.c:103-119 | The readdir loop, names in order |
| `Nftw.Walker.OneName` | extlib/non-glibc/au_nftw.c:113-118 | One child; on zero the directory's path is still there |
| `Nftw.Walker.AuNftw` | extlib/non-glibc/au_nftw.c:133-152 | The whole walk, and its two early exits |
| `Nftw.VisitedIff` | extlib/non-glibc/au_nftw.c:52-131 | In a walk without errors a path is visited if and only if each step down to it is listed, fits, and enters a readable directory that is neither skipped, nor on another device, nor its own ancestor, nor too deep |
| `Nftw.CallsAreReached` | extlib/non-glibc/au_nftw.c:52-131 | ... so a walk that returns zero has called fn for exactly these |
| `Nftw.ReachedIff` | extlib/non-glibc/au_nftw.c:52-131 | In plain terms, without the recursion: every node on the way exists, is a readable directory above the depth limit that equals none of its ancestors, lists the next name, which is not "." or ".." and fits; with FTW_MOUNT all are on one device; type, level and base of the visit are given exactly |
| `Nftw.CallsAreWays` | extlib/non-glibc/au_nftw.c:133-152 | So a walk that returns zero has called fn for exactly these ways down |
| `Nftw.ReachedIs` | extlib/non-glibc/au_nftw.c:78-88 | Depth and length limits, the last component of the path, and one device with FTW_MOUNT |
| `Nftw.BaseIff` | extlib/non-glibc/au_nftw.c:85-88 | The base offset is where the last name begins if and only if the visit is that of a root path without a slash, is a child of a root path without a trailing slash, or lies deeper |

## Left out

- UloopProgress.NeverStuck: what is shown is that a transfer can be carried to its end, with new daemons and other readers to help, not that a fair scheduler does so.
- FhsmDaemon.ReturnsIff: SIGCHLD signals that other processes send or that tell of a stopped child are not among the steps.
- UloopProtocol.InvKept: the queues are sequences in a step relation, not linked lists updated in place, since all readers and daemons share them.
- MtabLock.InvKept: link, open, write, rename and unlink are single steps of a relation; the retry loop of lock_mtab is its counter of failed attempts.
- RduRegistry.Registry.BufLock: used by one thread at a time; the locks and a DIR closed by another thread are not modelled.
- RduMerge.Rdu.Merge: failing allocations inside tsearch and a realloc to no bytes are not modelled.
- RduMerge.Rdu.TSearch: the library's rebalancing is not modelled; the results depend only on the names in the tree, not on its shape.
- RduDir.Dir.Init: AUFS_CTL_RDU_INO and failing allocations.
- RduDir.Dir.Pos: d_ino and d_type are not in the record.
- RduDir.Dir.ReadDir: inode numbers filled in by AUFS_CTL_RDU_INO, and the directory streams that are not aufs.
- FhsmMvdown.Mover.MoveFailed: recovery from partial writes (fhsm/list.c:175-194, 380-394).
- FhsmDaemon.Daemon.HandleFhsm: the mode without daemon and its chain of next branches; a failing malloc in au_mvdown_run.
- FhsmWmark.Fhsm.Resize: the table is an array that is replaced; mremap and the layout of shared memory are not modelled.
- FhsmWmark.Fhsm.Map: the exit for a broken signature.
- FhsmWmark.Fhsm.Sort: qsort is modelled by insertion, so nothing is said about its steps.
- FhsmWmark.TestUsage: ratios are reals, multiplied out; rounding of floats is not modelled, nor a NaN read by sscanf, which would pass every comparison in do_wmark.
- au_fhsm_csum and the signature of the shared table: a sum that is compared with itself.
- UloopProtocol.RunSafe: for runs whose failed bitmap reads are safe; `ReadSafeExact` shows that the others are not.
- UloopBitmap.ExecRefines: a setbmp that fails to read page 0 leaves no device and the file as it was, and is not an operation of a run.
- The environment variable AUFS_RDU_BLK, option parsing, logging and messages.
- FTW_DEPTH, FTW_NS and stat instead of lstat in au_nftw.
- ulohttp, logrow, pathconf, plink, branch and /proc parsing, the mount and umount helpers and the shell scripts: plumbing or easy.
