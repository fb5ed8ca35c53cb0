# The allocators, file system, locks and queues of the Coherent 386 kernel

This verification project models the parts of the Coherent 386 kernel whose correctness depends on
invariants over linked structures, and proves what the kernel relies on them for.

* **Record locks** (`LockRecords`, `LockAdding`, `LockTop`, `WaitGraph`, `LockManager`,
  `LockWaits`, `LockWakeup`, `LockSafety`, `LockClose`, `LockGrants`).
  Byte-range locks of a process on an inode, split, merged and replaced in place, with
  records from a fixed pool; requests that sleep; the recursive search for deadlocks.
  `LockTable` is the code; `LockWaits` puts its steps into arbitrary interleavings.
  Advisory locking is described in section 6.5.2 of IEEE Std 1003.1-1990.
* **The descriptor arena and physical pages** (`BuddyMath`, `BuddySpec`, `BuddyRings`,
  `BuddyArea`, `Pages`). A binary buddy system over circular lists, a bit map and a level
  field; on top of it the stack of free pages and the descriptor arrays of segments.
* **The file system** (`FsBytes`, `FsMap`, `FsTree`, `FsFree`, `FsVolume`, `FsFiles`,
  `FsGrow`, `FsHoles`, `FsIO`, `FsRead`, `FsContent`,
  `FsRuns`). The chained list of free blocks, files as trees
  of blocks with three levels of indirection, truncating, allocating on write, mapping,
  reading and writing, and what all this means for files as byte sequences.
* **The buffer cache and the sync sort** (`Chains`, `CacheLists`, `CacheSpec`, `Cache`,
  `SyncSort`). Hash chains and the chain of recent use in place, a state machine of one
  claiming process and the driver, and the radix sort of the sync list.
* **Dispatching, sleeping, timers, pipes, primes** (`FiniteSets`, `SchedSpec`, `SchedLaws`,
  `Scheduler`, `Gates`, `WheelSpec`, `TimingWheel`, `Pipe`, `Primes`).

Code that changes state is a class whose methods are proved against functions of the old
state; what is claimed of the kernel is proved about these functions, for all states and,
where it says so, for all runs. A method covers one stretch of code that runs without being
interrupted; where the source sleeps, the method ends, and its result says so.

## Where the code does not keep its promise

* An unlock that ends at offset 2^31-1 and meets a lock of the caller to the end of the file
  computes a start below zero. Removal is exact if and only if that does not happen
  (`LockTop.RemovalExactIffNoWrap`). When it happens, two processes may hold conflicting locks
  (`LockTop.TopOffsetBreaksExclusion`), exactly when the resulting record over everything is
  incompatible with one of somebody else (`LockTop.RemovalExcludesIff`); or the pool of records
  is used up (`LockTop.TopOffsetDrainsPool`).
* A lock that ends there is not merged with a neighbour below, and it may wrap in the same way.
  With enough records adding is exact, keeps the records of a process apart, and keeps
  exclusion if and only if the conditions in `LockTop.AddExactIff`, `LockTop.AddCanonicalIff`
  and `LockTop.AddExcludesIff` hold. Exclusion is claimed for runs in which no request wraps,
  which can be seen before each call (`LockManager.Harmless`); that no cycle of processes waits,
  that no wakeup is lost and that no record is lost holds of all runs.
* A lock inside an own lock of the other type needs two records. When only one is free it is
  granted all the same, and the caller then holds both types on the requested bytes; a granted
  request that does not wrap is exact if and only if there are enough records
  (`LockGrants.GrantExactIffEnough`).
* Closing a file is meant to drop all locks of the process on it. It does if and only if none of
  them starts below zero; otherwise the process keeps a lock on every byte, without a file and
  after its exit (`LockClose.CloseDropsEverythingIff`, `LockClose.CloseLeavesLock`).
* A request with a negative length at the lowest offset, -2^31, wraps around at both ends and
  locks a range of the file. Only such requests are not taken as they are meant
  (`LockSafety.ResolveIsTheRequestedRange`).
* `F_GETLK` reports a negative length for a lock from 0 to 2^31-1, and for no other
  (`LockSafety.ReportedRangeResolves`).
* `areainit` accepts an arena of exactly 2^NBUDDY units. The table of free lists is long
  enough if and only if the arena is smaller (`BuddyArea.ArenaFitsTableIff`).
* A function called at a tick may arm and cancel timers. When it arms the very timer that the
  scan looks at next for another slot, the scan goes on there, and the timers of this tick behind
  it are lost until the tick counter comes round (`WheelSpec.LostTimerFires`); arming another
  timer with no delay loses that one. No other arming does harm (`WheelSpec.ArmKeepsIff`,
  `WheelSpec.LosesTimers`, `WheelSpec.FunctionLosesTimer`). When it cancels that timer the scan
  still follows its link, which is harmless unless the timer is of this tick: then the scan
  stores through its empty link and calls its function
  (`WheelSpec.CancelKeepsIff`, `WheelSpec.CancelBreaks`, `WheelSpec.FunctionBreaksScan`).
* `isqrt` promises the root rounded up for every argument. It delivers it if and only if the
  argument is below 0xffff0000 (`Primes.RootIsExactIff`); above, a 32-bit square wraps.
* `isprime` answers no for 2; `nlp` is right nevertheless (`Primes.IsPrime`, `Primes.Nlp`).
* `arealloc` indexes the table of lists with a level that has no list for more than 8192 pages,
  and only then (`BuddyArea.ClassHasListIff`).
* `c_free` panics when the stack has no room for all pages of an array, counting those that
  would not go back to it, although there is always room for the others (`Pages.PoolHasRoom`).
  It happens if and only if the array has more foreign pages than other arrays have pages of
  the pool (`Pages.CheckFailsIff`), and does after `mapPhysUser` (`Pages.PanicIsReached`).
* A write of at most `PIPE_MAX` bytes never wraps around the ring, so it may wait although
  there is room for it in all (`Pipe.PipeNode.SmallWriteWaitsIff`).
* A write of at most `PIPE_MAX` bytes that need not wait is promised to be atomic. The blocks of
  a pipe are allocated while it is written, so it is whole if and only if there are free blocks
  for those that are missing (`Pipe.WholeIffBlocksSuffice`, `Pipe.PipeNode.PWrite`); on a disk
  with one free block a reader gets half of a record of two (`Pipe.TornRecord`). Order and count
  are kept all the same.

## Model

| member | source | states |
|---|---|---|
| LockRecords.MeetsIffShareByte | kernel/coh.386/rlock.c:223-243 | The interval test of the list scan, with -1 for the end of the file, holds exactly when two ranges share a byte |
| LockRecords.CutIsExact | kernel/coh.386/rlock.c:285-318 | The pieces that `extract` leaves of a record cover exactly the bytes of the record outside the removed range |
| LockRecords.RemoveIsExact | kernel/coh.386/rlock.c:322-346 | A removal that is served takes the removed bytes from the caller, for reading and writing, and changes nothing else for anybody (when it is served: RemoveServedIff) |
| LockRecords.RemoveServedIff | kernel/coh.386/rlock.c:321-346 | A removal is served exactly when no own record has to be cut in two, or a record is free for the second part and no offset wraps |
| LockRecords.RemoveFailsOnWrap | kernel/coh.386/rlock.c:285-346 | A removal whose offsets wrap does not have that effect |
| LockRecords.RemoveAllIsServed | kernel/coh.386/rlock.c:285-346 | Removing the whole range needs no free record; it leaves the caller exactly its records that start below zero, and makes them cover everything (with coh.386/fd.c:396-405) |
| LockRecords.RemoveKeepsPool | kernel/coh.386/rlock.c:247-346 | Removal loses and doubles no pool record, also when it fails half way |
| LockRecords.RemoveKeepsCanonical | kernel/coh.386/rlock.c:322-346 | Removal keeps one owner's records disjoint, and those of one type apart |
| LockRecords.RemoveShrinks | kernel/coh.386/rlock.c:322-346 | Every record after a removal lies inside one from before of the same owner and type, so removal creates no conflict, whatever fails |
| LockAdding.AddIsExact | kernel/coh.386/rlock.c:358-397 | With enough free records, which can be seen before the call, a lock gives the caller the requested type on exactly the requested bytes and changes nothing else |
| LockAdding.AddKeepsCanonical | kernel/coh.386/rlock.c:348-397 | The same keeps records of one owner disjoint and those of one type merged; at the top offset if no own lock of the type touches from below |
| LockAdding.GrantedIff | kernel/coh.386/rlock.c:365-388 | A request gets a record exactly when one is free or one is merged |
| LockAdding.AddServedIff | kernel/coh.386/rlock.c:358-397 | A request is granted with all its splits served exactly when there are enough records: one for the lock unless merging frees one, and another where an own record around it has to be cut in two |
| LockAdding.AddKeepsConflictFree | kernel/coh.386/rlock.c:348-397 | Adding a lock that nobody blocks leaves no two conflicting records, also when a split finds no free record |
| LockAdding.AddKeepsPool | kernel/coh.386/rlock.c:247-397 | Adding moves records between pool and list and loses none |
| LockAdding.AddBlocksOnlyForCaller | kernel/coh.386/rlock.c:358-397 | After adding, only the caller can be newly in the way of another request |
| LockTop.RemovalExactIffNoWrap | kernel/coh.386/rlock.c:285-346 | A served removal is exact if and only if no own record to the end of the file that it meets is cut at 2^31-1 |
| LockTop.TopOffsetBreaksExclusion | kernel/coh.386/rlock.c:306-317 | A concrete unlock at the top offset that leaves two processes with conflicting locks |
| LockTop.TopOffsetDrainsPool | kernel/coh.386/rlock.c:321-346 | At the top offset the removal splits again and again until no record is free, and fails |
| LockTop.RemovalExcludesIff | kernel/coh.386/rlock.c:285-346 | A removal keeps the lists free of conflicts if and only if it does not turn an own record into one over everything that is incompatible with a record of somebody else |
| LockTop.RemovalCanonicalIff | kernel/coh.386/rlock.c:321-346 | A removal keeps one owner's records disjoint and those of one type apart if and only if it does not turn an own record into one over everything while another piece of the caller's is left below the request |
| LockTop.AddExactIff | kernel/coh.386/rlock.c:358-397 | With enough records adding is exact if and only if it does not wrap or the caller ends up with the whole file anyway |
| LockTop.AddCanonicalIff | kernel/coh.386/rlock.c:358-397 | With enough records adding keeps the canonical form if and only if it does not wrap and, ending at the top offset, is not touched from below by an own lock of the type |
| LockTop.AddExcludesIff | kernel/coh.386/rlock.c:358-397 | A granted request that nobody blocks keeps the lists free of conflicts if and only if it does not turn an own record into one over everything that is incompatible with a record of somebody else |
| LockManager.LockTable.NextMeet | kernel/coh.386/rlock.c:221-243 | Finds the first record after a position that shares a byte with the request |
| LockManager.LockTable.NextBlock | kernel/coh.386/rlock.c:205-218 | Finds the first record after a position that conflicts with the request |
| LockManager.LockTable.FreeLock | kernel/coh.386/rlock.c:261-275 | Unlinks the record, puts it first on the free list and leaves the scan at its predecessor |
| LockManager.LockTable.Extract | kernel/coh.386/rlock.c:277-318 | Leaves the pieces that remain of a record, the second one in a record from the pool; reports when there is none and then has changed nothing |
| LockManager.LockTable.RemLock | kernel/coh.386/rlock.c:321-346 | The scan with its moving cursor is the removal that the lemmas are about |
| LockManager.LockTable.MergeNeighbours | kernel/coh.386/rlock.c:365-383 | The merge loop frees just the caller's records of the same type that touch the request, and computes the union |
| LockManager.LockTable.AddLock | kernel/coh.386/rlock.c:348-397 | Installing a lock in place is the addition that the lemmas are about |
| LockManager.LockTable.Waiting | kernel/coh.386/rlock.c:449-468 | The recursion ends, and answers yes exactly when a chain of waits leads from its argument to the caller |
| LockManager.LockTable.FindDeadlock | kernel/coh.386/rlock.c:422-428 | Some process in the way waits, directly or not, for the caller |
| LockManager.LockTable.TestLock | kernel/coh.386/rlock.c:136-149 | F_GETLK reports nothing exactly when nobody is in the way, and otherwise the first record that is, its length in 32 bits |
| LockManager.LockTable.SetLock | kernel/coh.386/rlock.c:157-160 | F_SETLK is one step: EACCES exactly when somebody is in the way |
| LockManager.LockTable.Unlock | kernel/coh.386/rlock.c:150-151 | F_UNLCK is one step; ENOLCK when a split finds no record |
| LockManager.LockTable.WaitForLock | kernel/coh.386/rlock.c:403-432 | F_SETLKW up to its sleep is one step: granted, no record, EDEADLK exactly when a cycle would be closed, or asleep |
| LockManager.LockTable.Retry | kernel/coh.386/rlock.c:434-445 | After a wakeup: granted, which is never refused for lack of a record, or asleep again |
| LockManager.LockTable.Interrupt | kernel/coh.386/rlock.c:436-440 | A signal ends the wait with EINTR and returns the record |
| LockWaits.RefusedIffCycle | kernel/coh.386/rlock.c:403-468 | Whatever ranges have been locked, a request is refused with EDEADLK if and only if sleeping would close a cycle of waiting processes |
| LockWaits.SleeperIsNotRefused | kernel/coh.386/rlock.c:419-443 | A request that has slept is never refused for a deadlock when it wakes |
| LockWaits.StepKeepsWaits | kernel/coh.386/rlock.c:90-468 | Each step of each process, with whatever range, keeps the wait-for graph free of cycles, every record owned and every sleeper waiting for a lock of its own |
| LockWaits.RunKeepsWaits | kernel/coh.386/rlock.c:90-468 | So does every interleaving |
| LockSafety.StepKeepsInv | kernel/coh.386/rlock.c:90-468 | Each step whose request does not wrap keeps the lists well formed and free of conflicts |
| LockSafety.RequestKeepsInvIff | kernel/coh.386/rlock.c:90-468 | How far the invariant reaches from which exclusion follows: exactly which locks, sleeps and unlocks keep it |
| LockSafety.RunKeepsInv | kernel/coh.386/rlock.c:90-468 | So does every interleaving of such steps |
| LockSafety.InitialInv | kernel/coh.386/rlock.c:169-188 | The initial state has the invariant |
| LockWaits.SomeoneWaitsForRunningOnly | kernel/coh.386/rlock.c:403-468 | No deadlock: if anybody sleeps, somebody sleeps behind processes that do not |
| LockWaits.RunKeepsRecords | kernel/coh.386/rlock.c:246-446 | Over every run, with whatever ranges, each pool record is free, active or pending, exactly once |
| LockWaits.ReachableIsOrdered | kernel/coh.386/rlock.c:90-468 | From the start, in whatever order processes act and with whatever ranges: no cycle of them waits, and no record is lost or doubled |
| LockWakeup.StepAttends | kernel/coh.386/rlock.c:162-166 | No wakeup is lost: after every call whoever sleeps and has not been woken is blocked (with coh.386/rlock.c:419-443) |
| LockWakeup.RunAttends | kernel/coh.386/rlock.c:162-166 | So it is in every run |
| LockWakeup.WakesExactly | kernel/coh.386/rlock.c:162-166 | A call wakes exactly the processes that sleep on its inode; one that ends asleep wakes nobody |
| LockWakeup.SomebodyGoesOn | kernel/coh.386/rlock.c:90-468 | From the start, processes never all sleep without one of them having been woken |
| LockSafety.ReachableIsSafe | kernel/coh.386/rlock.c:90-468 | From the start, in whatever order processes act, as long as no request wraps: no two hold conflicting locks on a byte |
| LockSafety.GrantIsExact | kernel/coh.386/rlock.c:358-397 | Seen over all inodes, a request with enough records is granted and changes the lock map on the requested range of one inode for one process, and nowhere else; when the lists stay canonical |
| LockSafety.UnlockIsExact | kernel/coh.386/rlock.c:321-346 | The same for an unlock; on canonical lists it is served exactly when a record is free or no own lock reaches beyond the range on both sides, and else changes nothing |
| LockSafety.NoRecordsIff | kernel/coh.386/rlock.c:279-446 | For each kind of request, exactly when it ends with ENOLCK |
| LockGrants.SetLockAnswer | kernel/coh.386/rlock.c:157-160 | F_SETLK, seen in the lock maps: EACCES exactly when somebody else holds a requested byte and one of the two is for writing, ENOLCK exactly when no record is free or merged, both without effect; otherwise the caller holds all it asked for, and with enough records nothing else has changed |
| LockGrants.WaitAnswer | kernel/coh.386/rlock.c:403-446 | F_SETLKW up to its sleep, seen in the lock maps: granted likewise when nothing is contended; asleep, with the request pending and nothing else changed, exactly when that closes no cycle of waits; ENOLCK and EDEADLK exactly otherwise, without effect |
| LockGrants.RetryAnswer | kernel/coh.386/rlock.c:434-446 | After a sleep: asleep again exactly when a requested byte is contended; otherwise the request is no longer pending and the caller holds all it asked for, and with enough records nothing else has changed |
| LockGrants.ReachableGrant | kernel/coh.386/rlock.c:90-468 | In every reachable state, with whatever ranges: a request that is granted was not contended, and the caller holds all of it |
| LockGrants.UnservedGrant | kernel/coh.386/rlock.c:348-397 | What a request does that gets the last record inside an own lock of the other type |
| LockGrants.GrantExactIffEnough | kernel/coh.386/rlock.c:348-397 | A granted request that does not wrap is exact if and only if there are enough records; otherwise the caller holds its old type there as well |
| LockSafety.NoTwoHoldersConflict | kernel/coh.386/rlock.c:90-167 | In a reachable state no byte is locked for writing by one process and in any way by another |
| LockClose.CloseDropsEverything | kernel/coh.386/fd.c:396-405 | As long as no request wraps, closing a file leaves the caller no lock on it, and it always succeeds |
| LockClose.RunKeepsFormed | kernel/coh.386/rlock.c:277-397 | In every run, with whatever ranges, a record starts at an offset or at -2^31, and ends at an offset or with the file |
| LockClose.CloseDropsEverythingIff | kernel/coh.386/rlock.c:285-346 | Closing always succeeds, and leaves the caller nothing if and only if it has no record that starts below zero; otherwise it leaves it every byte (with coh.386/fd.c:396-405) |
| LockClose.ReachableClose | kernel/coh.386/fd.c:396-405 | So it is in every run from the start |
| LockClose.CloseLeavesLock | kernel/coh.386/rlock.c:285-346 | Three calls, all of which succeed, after which a process with no file left has a lock on every byte (with coh.386/fd.c:396-405) |
| LockSafety.ResolveIsTheRequestedRange | kernel/coh.386/rlock.c:110-131 | In 32 bits: the request is accepted exactly when all bytes that whence, start and length ask for have offsets, and then the record covers exactly those, if and only if it does not reach back from the lowest offset |
| LockSafety.WhenceIsRelative | kernel/coh.386/rlock.c:112-117 | A range from the seek position or the end of the file is one that begins that much further on |
| LockSafety.ReportedRangeResolves | kernel/coh.386/rlock.c:141-146 | The range that F_GETLK reports, used in a request, is the range of the record, if and only if that is not 0 to 2^31-1 |
| WaitGraph.CycleIffReachesBack | kernel/coh.386/rlock.c:449-468 | If a graph has no cycle without the edges of one process, it has one with them exactly when that process reaches itself |
| WaitGraph.EdgesIntoSinkStayAcyclic | kernel/coh.386/rlock.c:419-446 | New waits for a process that does not wait close no cycle |
| BuddyMath.BuddyIsSibling | kernel/i386/mmu.c:749-750 | Flipping bit k of an aligned index gives the aligned start of the other half of the pair |
| BuddySpec.MergeTiles | kernel/i386/mmu.c:748-763 | Replacing a block and its buddy by their union keeps every unit covered exactly once |
| BuddySpec.SplitTiles | kernel/i386/mmu.c:802-815 | So does replacing a block by its halves |
| BuddySpec.FreeRunInOneBlock | kernel/i386/mmu.c:748-763 | With nothing left to coalesce, an aligned run of free units lies inside one free block |
| BuddySpec.FreeBlocksAreUnique | kernel/i386/mmu.c:730-818 | The live blocks determine the free ones; so freeing what was allocated restores the exact set of free blocks |
| BuddySpec.FreeBlockIsMaximal | kernel/i386/mmu.c:748-763 | Around a free block the run of the next size is not free |
| BuddyRings.InsertLinks | kernel/i386/mmu.c:48-50 | INSERT2 appends a node to a circular list, forward and backward links alike |
| BuddyRings.DeleteLinks | kernel/i386/mmu.c:51-54 | DELETE2 takes out exactly the node |
| BuddyRings.Rings.Insert | kernel/i386/mmu.c:48-50 | The same among all lists of the arena in place: the other lists keep their members (with i386/mmu.c:766) |
| BuddyRings.Rings.Delete | kernel/i386/mmu.c:51-54 | The same for taking out (with i386/mmu.c:757) |
| BuddyArea.AreaSizeIsLeast | kernel/i386/mmu.c:839-895 | areasize gives the least level whose blocks hold that many descriptors, for 1 to 0x3F00 |
| BuddyArea.ClassHasListIff | kernel/i386/mmu.c:780-799 | A size class has a list if and only if the request is for at most 8192 descriptors |
| BuddyArea.Area.constructor | kernel/i386/mmu.c:821-837 | areainit establishes the invariant: every unit in exactly one free or live block, nothing left to coalesce, lists, bits and levels agreeing |
| BuddyArea.Area.Coalesce | kernel/i386/mmu.c:748-763 | One turn of the loop merges the block with its buddy exactly if that is free at the same level |
| BuddyArea.Area.AreaFree | kernel/i386/mmu.c:730-769 | Freeing takes just that block out of the live ones and keeps the invariant over lists, bit map and levels |
| BuddyArea.Area.AreaAlloc | kernel/i386/mmu.c:780-818 | Allocating yields a new block of the class of the request, at the start of the first free block of the least level that has one, and fails exactly when no aligned run of that size is wholly free |
| BuddyArea.AllocThenFree | kernel/i386/mmu.c:730-818 | Freeing what was just allocated restores the very set of free blocks |
| BuddyArea.ArenaFitsTableIff | kernel/i386/mmu.c:831-833 | Every coalesced arrangement fits the table of lists if and only if the arena has fewer than 2^NBUDDY units (with i386/mmu.c:763-766) |
| Pages.ArrayGrows | kernel/i386/mmu.c:276-281 | Pages that move from the stack into an array, in front or behind, are still each in exactly one place (with i386/mmu.c:684-691 and i386/mmu.c:1285-1289) |
| Pages.ArrayFreed | kernel/i386/mmu.c:311-323 | Pages that go back are in exactly one place, foreign pages excepted |
| Pages.PoolHasRoom | kernel/i386/mmu.c:308-310 | The stack always has room for the pages that really go back |
| Pages.NoForeignPages | kernel/i386/mmu.c:308-323 | An array without foreign pages gives back as many pages as it has descriptors, so the check lets it pass |
| Pages.CheckIsTooStrict | kernel/i386/mmu.c:308-310 | There is an arrangement with foreign pages in which the check of c_free fails although the stack has room |
| Pages.CheckFailsIff | kernel/i386/mmu.c:308-310 | The check fails if and only if the array has more foreign pages than other arrays have pages of the pool |
| Pages.PageSystem.MapPhysUser | kernel/i386/mmu.c:599-627 | Replacing pages of an array by foreign ones returns exactly the own ones to the stack, which always has room, and keeps every page in one place; how far the range may reach (with i386/mmu.c:562-566) |
| Pages.PanicIsReached | kernel/i386/mmu.c:287-325 | A run from the start, through allocation and replacing one page, to the panic of c_free, with room on the stack |
| Pages.RoomForOneMore | kernel/i386/mmu.c:668-679 | An array whose length is not a power of two stays in its size class when it grows by one |
| Pages.ArraysApart | kernel/i386/mmu.c:730-818 | A descriptor array lies in the arena and shares no unit with another one's block |
| Pages.PageSystem.constructor | kernel/i386/mmu.c:821-837 | At the start all pages are on the stack |
| Pages.PageSystem.CAlloc | kernel/i386/mmu.c:259-284 | Fails exactly for lack of pages or of a free run of descriptors; otherwise the new array has the pages from the top of the stack, and pages are conserved |
| Pages.PageSystem.CFree | kernel/i386/mmu.c:287-325 | Gives back the pages and the very block that was taken; panics exactly when stack and array together exceed the number of pages |
| Pages.PageSystem.CExtend | kernel/i386/mmu.c:638-695 | Puts one page in front, moving the array when its length is a power of two; exact conditions of failure; the array is in the class of its new length |
| Pages.PageSystem.CGrow | kernel/i386/mmu.c:1205-1305 | Puts pages behind, moving the array when its class changes; exact conditions of failure |
| FsBytes.Put | kernel/coh.386/fs3.c:646-650 | A block address stored in an indirect block is the one read back, and other bytes are kept |
| FsBytes.ChainBlock | kernel/coh.386/fs2.c:588-599 | A chain block holds the count and all addresses of the list in the superblock |
| FsMap.PathRoundTrip | kernel/coh.386/fs3.c:249-307 | Every block number below the limit has a path, and the path gives the number back |
| FsMap.BlockRoundTrip | kernel/coh.386/fs3.c:249-307 | Every path is that of exactly one number below BPFMAX (with coh.386/var.c:87) |
| FsMap.RunAdvancesLeaf | kernel/coh.386/fs3.c:260-284 | Over the run length only the last index of the path advances |
| FsMap.RunIsMaximal | kernel/coh.386/fs3.c:260-284 | The block after the run has another path up to the last index |
| FsMap.PathsAreInOrder | kernel/coh.386/fs3.c:249-307 | Higher block numbers have later paths, read from the inode down |
| FsMap.Lmap | kernel/coh.386/fs3.c:240-307 | Stores the path backwards with its run length; fails exactly from BPFMAX on |
| FsFree.InsertKeeps | kernel/coh.386/fs2.c:466-512 | daddr_add loses and doubles no block |
| FsFree.InsertSorts | kernel/coh.386/fs2.c:466-512 | On a descending list the smallest comes out and the rest stays descending |
| FsFree.InsertPlace | kernel/coh.386/fs2.c:483-511 | In a list in whatever order the new block goes before the first smaller one, if any |
| FsFree.DaddrAdd | kernel/coh.386/fs2.c:473-512 | The shifting in place is that insertion, and touches only its slots |
| FsFree.HeadCounted | kernel/coh.386/fs2.c:588-602 | Every block that holds a part of the list is itself on the list |
| FsFree.StackCounts | kernel/coh.386/fs2.c:584-604 | The chained lists, flattened into one stack, hold each block as often as it is counted free, and as many as s_tfree says |
| FsFree.StackPushed | kernel/coh.386/fs2.c:584-604 | Freeing pushes on that stack, whether the list is spilled or not |
| FsFree.StackPopped | kernel/coh.386/fs2.c:713-753 | Allocating pops it, whether the next list is loaded or not |
| FsFree.WriteOffList | kernel/coh.386/fs2.c:536-607 | Writing a block that is not on the free list leaves the chain alone |
| FsFree.SpillChain | kernel/coh.386/fs2.c:584-604 | Spilling the full list into the freed block makes a longer proper chain whose slot 0 is the link |
| FsFree.PopChain | kernel/coh.386/fs2.c:713-753 | Taking the last entry, and reading the next list when it was the link, leaves a proper chain without that block |
| FsVolume.Volume.BFree | kernel/coh.386/fs2.c:531-607 | Adds exactly its block to the free blocks, on top of the stack when sorting is off, and counts it; while the list in the superblock has room it joins it, slot 0 and the disk staying as they were, and an empty or full list is written into the one block that then is the list; with sorting the smallest ends up on top; ignores a block out of range, writes only free blocks, and keeps sorted lists sorted |
| FsVolume.Volume.SortIn | kernel/coh.386/fs2.c:572-582 | Exchanges the new block for the smallest behind slot 0, which keeps its link |
| FsVolume.Volume.Place | kernel/coh.386/fs2.c:584-604 | Pushes a block on the stack as the last resident entry, the others staying; spills the list, with its count, into that block exactly when it is full or empty |
| FsVolume.Volume.BAlloc | kernel/coh.386/fs2.c:682-759 | Pops the stack: removes and returns the last resident block, which was free exactly once; 0 exactly when nothing is free; loads the next list exactly when the last entry was the link |
| FsVolume.LastIsSmallest | kernel/coh.386/fs2.c:564-582 | With sorted lists that block is the smallest resident one, the link in slot 0 set aside |
| FsVolume.FreeThenAlloc | kernel/coh.386/fs2.c:572-604 | With sorting, an allocation right after a block was freed into a list with room answers the smallest of that block and those behind slot 0 (with coh.386/fs2.c:713-753) |
| FsVolume.Volume.IndFree | kernel/coh.386/fs2.c:610-662 | Frees each block of a tree, indirect ones included, exactly once, though freeing may write the blocks it frees |
| FsVolume.Volume.FreeKids | kernel/coh.386/fs2.c:636-660 | The loop over the copied indirect block frees exactly the subtrees |
| FsTree.TreeFrame | kernel/coh.386/fs2.c:615-662 | Which blocks a tree has depends only on the contents of its own blocks |
| FsTree.DifferentPaths | kernel/coh.386/fs3.c:564-660 | In a tree without repeated blocks different paths lead to different blocks |
| FsTree.HolesBelow | kernel/coh.386/fs3.c:357-368 | Below a missing indirect block everything is missing |
| FsTree.WriteLeaf | kernel/coh.386/fs3.c:704-715 | Writing a data block changes no membership in the tree |
| FsTree.LinkGrows | kernel/coh.386/fs3.c:633-657 | Linking a new block adds exactly that block to the tree |
| FsTree.LinkFollow | kernel/coh.386/fs3.c:633-657 | It changes only where its own path and those below lead |
| FsFiles.NothingIsShared | kernel/coh.386/fs3.c:564-660 | Two places in files are never the same disk block |
| FsFiles.FilesKeepBytes | kernel/coh.386/fs2.c:536-662 | Changes to blocks of no file change no file |
| FsGrow.NewRoot | kernel/coh.386/fs3.c:587-597 | A new block in a slot of the inode changes only what its path leads to |
| FsGrow.NewChild | kernel/coh.386/fs3.c:640-656 | The same for a new block below an indirect block |
| FsGrow.WriteData | kernel/coh.386/fs3.c:704-715 | Writing a located block changes the contents of that file block and of no other in any file |
| FsIO.FileSystem.ITruncate | kernel/coh.386/fs1.c:588-631 | Exactly the blocks of the file become free, each as often as it was in the file, which is once; its slots and size are cleared, other files read as before |
| FsIO.FileSystem.NewInSlot | kernel/coh.386/fs3.c:587-597 | A block from the free list goes into an empty slot, cleared unless it is to be overwritten (with coh.386/fs3.c:611-623) |
| FsIO.FileSystem.NewUnder | kernel/coh.386/fs3.c:633-657 | The same for a hole in an indirect block |
| FsIO.FileSystem.ARead | kernel/coh.386/fs3.c:556-660 | Returns the disk block of a file block, allocating what is missing on the way; files read as before; takes exactly the missing blocks of its path, and fails exactly for a number beyond the limit or when more are missing than free |
| FsIO.FileSystem.WriteChunk | kernel/coh.386/fs3.c:690-727 | One turn of the loop of fwrite puts its bytes in place and nothing else; exactly when it fails |
| FsHoles.MissingCounts | kernel/coh.386/fs3.c:577-657 | The number of blocks that aread allocates for a block is that of the holes on its path |
| FsHoles.RootFilled | kernel/coh.386/fs3.c:587-597 | A new block in a slot fills that hole of the file and no other |
| FsHoles.ChildFilled | kernel/coh.386/fs3.c:633-657 | So does a new block below an indirect block |
| FsHoles.TakesNext | kernel/coh.386/fs3.c:690-727 | In the middle of a write, what the next block takes is what it adds to the holes on the paths of all blocks, paths sharing indirect blocks |
| FsIO.FileSystem.FWrite | kernel/coh.386/fs3.c:676-728 | The bytes written are there, the size has grown to hold them, every other byte of every file is as before; they are as many as fit, all of them if and only if they are below the limit of a file and the holes on the paths of their blocks, counted once each before the call, are at most the free blocks |
| FsRead.Descend | kernel/coh.386/fs3.c:354-381 | Reading the indirect blocks on a path ends at the last one, or at the first that is missing |
| FsRead.MapRun | kernel/coh.386/fs3.c:345-393 | One pass maps the part of a run that is asked for, each entry as a single lookup would give it |
| FsRead.VMap | kernel/coh.386/fs3.c:310-397 | The entries are those of single lookups, holes marked; one run, or in group mode all; -1 exactly beyond the limit |
| FsRead.ReadChunk | kernel/coh.386/fs3.c:531-540 | The piece of a block is that of the file, zeros for a hole |
| FsRead.FRead | kernel/coh.386/fs3.c:400-553 | Reads exactly the bytes asked for that the file has |
| FsContent.WriteRefines | kernel/coh.386/fs3.c:679-728 | As a byte sequence the file has the data spliced in, a gap filled with zeros; bytes past the end stay zero; other files do not change |
| FsContent.OthersKeepBytes | kernel/coh.386/fs3.c:679-728 | Other files keep their bytes, and their zeros past the end |
| FsContent.ReadRefines | kernel/coh.386/fs3.c:419-553 | A read is a slice of that sequence |
| FsContent.ReadBack | kernel/coh.386/fs3.c:419-553 | A read returns what was written last (with coh.386/fs3.c:679-728) |
| FsContent.SameContent | kernel/coh.386/fs1.c:588-631 | A file whose blocks read as before is the same sequence |
| FsContent.TruncatedIsEmpty | kernel/coh.386/fs1.c:588-631 | A truncated file is empty, with zeros past its end |
| FsRuns.BehavesOn | kernel/coh.386/fs3.c:400-728 | A run of calls that behaves like byte sequences can be continued by a call that is answered as they would |
| FsRuns.WriteHolds | kernel/coh.386/fs3.c:679-728 | Every file still reads as its sequence after a write |
| FsRuns.TruncateHolds | kernel/coh.386/fs1.c:588-631 | The same after a truncation |
| FsRuns.Files.Serve | kernel/coh.386/fs3.c:400-728 | A write, truncation or read is answered as byte sequences would, a write storing the most that fits (with coh.386/fs1.c:588-631) |
| FsRuns.Files.ServeAll | kernel/coh.386/fs3.c:400-728 | So is any run of calls, on any files, also through writes cut short by a full disk (with coh.386/fs1.c:588-631) |
| CacheSpec.StepKeeps | kernel/coh.386/bio.c:1237-1753 | Every step of process or driver keeps: at most one buffer for a block, clean data agree with the disk, only clean unlocked buffers are reused |
| CacheSpec.StepKeepsContents | kernel/coh.386/bio.c:1237-1753 | Claiming, evicting, reading ahead, syncing, flushing and completing transfers change the contents of no block; storing changes one |
| CacheSpec.CacheIsTransparent | kernel/coh.386/bio.c:1237-1753 | Over any run the contents of each block are those that a plain disk would hold |
| CacheSpec.ReadIsLogical | kernel/coh.386/bio.c:1237-1308 | A buffer that is present holds the contents of its block |
| CacheSpec.SyncedDiskIsLogical | kernel/coh.386/bio.c:952-1087 | When no buffer is changed the disk has the contents of every block |
| CacheSpec.ProcessStepDoes | kernel/coh.386/bio.c:572-608 | Locking, storing, releasing and starting transfers, field by field: one buffer changes, and a transfer leaves its data and identity alone |
| CacheSpec.ClaimDoes | kernel/coh.386/bio.c:1596-1624 | A claimed buffer is for the new block and not present; a dropped one is for none (with coh.386/bio.c:1121-1135) |
| CacheSpec.CompleteDoes | kernel/coh.386/bio.c:1712-1753 | A completed write leaves the buffer clean and the contents of its block on the disk, a completed read leaves them in the buffer; it is unlocked if nobody waits for it |
| CacheSpec.AllComplete | kernel/coh.386/bio.c:1712-1753 | When transfers complete in whatever order, none of their buffers is changed any more, and no block has other contents |
| CacheSpec.SyncReachesDisk | kernel/coh.386/bio.c:952-1087 | Once the transfers under way after a sync are complete, the disk has the contents of every block but those in changed buffers that the process had locked |
| CacheLists.LruChain.constructor | kernel/coh.386/bio.c:226-263 | bufinit sets up the chain of all buffers |
| CacheLists.LruChain.Update | kernel/coh.386/bio.c:1332-1359 | LRUupdate moves the buffer to the front and keeps the order of the others, both ways of linking |
| CacheLists.ToFrontKeepsOrder | kernel/coh.386/bio.c:1332-1359 | The order after LRUupdate, place by place |
| CacheLists.HashChains.constructor | kernel/coh.386/bio.c:223-256 | bufinit puts every buffer on a chain |
| CacheLists.HashChains.Insert | kernel/coh.386/bio.c:181-189 | HASHinsert puts the buffer first on the chain of its hash value |
| CacheLists.HashChains.Delete | kernel/coh.386/bio.c:1362-1401 | HASHdelete takes exactly that buffer off its chain |
| CacheLists.HashChains.FindPrev | kernel/coh.386/bio.c:1390-1396 | The search finds the buffer before it |
| Cache.BufferCache.constructor | kernel/coh.386/bio.c:197-266 | The cache starts with unclaimed buffers on their chains |
| Cache.BufferCache.BufferFind | kernel/coh.386/bio.c:642-678 | Searching one chain finds the buffer of a block if any buffer has it |
| Cache.BufferCache.SyncDirty | kernel/coh.386/bio.c:952-1087 | Every changed buffer that nobody has locked is with the driver to be written, its block and data the same; every other buffer is as it was |
| Cache.BufferCache.TakeOver | kernel/coh.386/bio.c:1596-1624 | A reused buffer leaves its old chain, goes to the front, and is on the chain of its new identity |
| Cache.BufferCache.Replace | kernel/coh.386/bio.c:1566-1636 | Takes the least recently used buffer that is free and clean: all behind it were locked or changed, and are locked now; sleeps exactly when all buffers were locked or changed, and then all are locked, the changed ones being written |
| Cache.BufferCache.BClaim | kernel/coh.386/bio.c:1530-1637 | Returns the buffer of the block, the resident one unchanged, at the front of recent use; contents of blocks are unaffected; sleeps exactly when the resident buffer is locked and wanted, or none is resident and all are locked or changed |
| Cache.BufferCache.BRead | kernel/coh.386/bio.c:1237-1308 | A synchronous read ends with the contents of the block in a locked buffer or a transfer to wait for; a read ahead with a transfer under way or nothing to do; exactly when each |
| Cache.BufferCache.WriteStart | kernel/coh.386/bio.c:572-608 | A write is started only on a changed buffer, which stays locked until it is done |
| Cache.BufferCache.Store | kernel/coh.386/fs3.c:712-713 | A process changes the data of a buffer that it has locked, and marks it changed |
| Cache.BufferCache.ReadStart | kernel/coh.386/bio.c:1245-1285 | A read is started only on a buffer that is not present |
| Cache.BufferCache.BRelease | kernel/coh.386/bio.c:1191-1208 | Releasing marks a buffer present and unlocks it |
| Cache.BufferCache.FlushFinish | kernel/coh.386/bio.c:1121-1135 | A flush gives up the identity of a clean buffer |
| Cache.BufferCache.Transferred | kernel/coh.386/bio.c:1712-1753 | biodone: a written buffer is clean, a read one has the data of the disk, an asynchronous one is unlocked |
| Cache.LeadsQuietly | kernel/coh.386/bio.c:1237-1637 | What claims and reads do, however many steps it takes, leaves all contents alone |
| Cache.ReadArrives | kernel/coh.386/bio.c:1281-1307 | A read that was waited for yields the contents of the block |
| SyncSort.Distribute | kernel/coh.386/bio.c:363-377 | After the walk each bucket holds the nodes with its digit, last one first |
| SyncSort.Collect | kernel/coh.386/bio.c:384-398 | The output is class after class, each in its original order |
| SyncSort.RadixPass | kernel/coh.386/bio.c:351-406 | One pass over the links in place is that function of the list |
| SyncSort.PassPermutes | kernel/coh.386/bio.c:351-406 | A pass loses and doubles no node, whatever digits it reads |
| SyncSort.PassIsStable | kernel/coh.386/bio.c:351-406 | A pass is ascending in the digit, and nodes with the same digit keep their order |
| SyncSort.SortSyncList | kernel/coh.386/bio.c:986-990 | The four passes in place, reading anew each time |
| SyncSort.PassesPermute | kernel/coh.386/bio.c:969-990 | The result is a permutation of the list even if block numbers change between passes |
| SyncSort.SyncListIsSorted | kernel/coh.386/bio.c:963-990 | When they do not, it is sorted by unsigned block number, equal ones in their old order |
| SchedSpec.Best | kernel/coh.386/proc.c:328-339 | The choice is the first place with the highest sum of priority and stamp |
| SchedSpec.FrontIsFed | kernel/coh.386/proc.c:340-345 | The front of the queue gains one whenever it is passed over |
| SchedSpec.FedBounds | kernel/coh.386/proc.c:331-348 | A dispatch raises nobody's stamp by more than one |
| SchedSpec.StepKeeps | kernel/coh.386/proc.c:408-426 | Priorities stay at or below 1000, and the running process has no stamp (with coh.386/proc.c:676-678) |
| SchedSpec.ChosenLongAgo | kernel/coh.386/proc.c:310-355 | Who is chosen before a waiting front was last chosen within the first dispatches of the wait |
| SchedSpec.FrontIsChosen | kernel/coh.386/proc.c:310-355 | The front of the run queue is chosen within a number of dispatches given by the priority ceiling, the largest boost of a sleep and the number of processes, whatever others do (with coh.386/proc.c:408-426 and coh.386/lib/proc_setrun.c:42-57) |
| SchedSpec.AnyFrontIsChosen | kernel/coh.386/proc.c:310-355 | The same, one dispatch later, for a front that is just giving up the processor |
| SchedSpec.EveryoneIsChosen | kernel/coh.386/proc.c:310-355 | A process with p others before it in the run queue is chosen within p+1 times such a number of dispatches, whatever others do |
| SchedLaws.FedIff | kernel/coh.386/proc.c:328-348 | A scan feeds exactly those that it passes over, but not the process that gives up the processor |
| SchedLaws.DispatchChooses | kernel/coh.386/proc.c:310-403 | A dispatch takes the first of those with the highest sum of priority and stamp off the queue, and only it |
| SchedLaws.DispatchFeeds | kernel/coh.386/proc.c:310-355 | Its stamp is spent, and exactly those passed over are fed |
| SchedLaws.DispatchCharges | kernel/coh.386/proc.c:406-426 | The process that gives up the processor, and nobody else, gets the mean, rounded down, of its old priority and 1000 over the ticks used |
| SchedLaws.OthersDo | kernel/coh.386/proc.c:671-678 | What the other steps do to queue, priorities and stamps |
| SchedLaws.MoreUseIsNotHigher | kernel/coh.386/proc.c:406-426 | Of two processes with equal priority the one that used more ticks never comes out higher |
| SchedLaws.HogsFall | kernel/coh.386/proc.c:406-426 | In any run, a process that always uses all of its quantum is at 99 or 100 of 1000 after ten turns |
| Scheduler.Dispatcher.GetNextProcess | kernel/coh.386/proc.c:310-355 | The scan in place computes that choice and those stamps |
| Scheduler.Dispatcher.ScanPlace | kernel/coh.386/proc.c:328-348 | One turn of the scan is one step of that choice: the place takes the lead or is fed |
| Scheduler.Dispatcher.Dispatch | kernel/coh.386/proc.c:398-441 | Choosing, unlinking, charging the process that gives up the processor, and it only, for its ticks, and the quantum are one step |
| Scheduler.Dispatcher.SetRunnable | kernel/coh.386/lib/proc_setrun.c:42-57 | A process joins where the scan comes last |
| Scheduler.Dispatcher.GoToSleep | kernel/coh.386/proc.c:671-678 | The stamp after a sleep depends only on its priority |
| Scheduler.Dispatcher.Tick | kernel/coh.386/clock.c:147-148 | A tick lowers the quantum, which has no floor, and nothing else |
| Gates.WakeKeeps | kernel/coh.386/proc.c:715-788 | wakeup makes runnable exactly the processes asleep on the event, though other events share the queue |
| Gates.Sleepers.Wakeup | kernel/coh.386/proc.c:745-788 | The search that starts again after every hit ends, and wakes them in the order in which they slept |
| Gates.StepKeeps | kernel/coh.386/proc.c:791-855 | Every step keeps: a gate is locked exactly when it has a holder, and one only; whoever sleeps on a gate finds it locked with its waiter flag set |
| Gates.RunKeeps | kernel/coh.386/proc.c:791-855 | So does every interleaving |
| Gates.SleeperIsWoken | kernel/coh.386/proc.c:834-848 | No wakeup is lost: a sleeper stays, behind a holder, until the gate is unlocked, and then is runnable |
| Gates.LockDoes | kernel/coh.386/proc.c:791-826 | A gate that is open becomes the caller's; else the caller sleeps on it with the waiter flag set; nothing else changes |
| Gates.UnlockDoes | kernel/coh.386/proc.c:829-855 | The gate is open and given up, exactly those asleep on it are runnable, and nothing else changes |
| Gates.SleepDoes | kernel/coh.386/proc.c:680-686 | Going to sleep on an event changes only the sleeper |
| Gates.SleepsBehind | kernel/coh.386/proc.c:680-686 | Who goes to sleep does so behind those who sleep on the event already |
| Gates.WokenInOrder | kernel/coh.386/proc.c:745-788 | Over any run, processes asleep on an event become runnable in the order in which they went to sleep, behind those that are runnable |
| Gates.Sleepers.GateLock | kernel/coh.386/proc.c:791-826 | One turn of the loop: the gate, or asleep with the flag set, also for a process that holds it already |
| Gates.Sleepers.GateUnlock | kernel/coh.386/proc.c:829-855 | Unlocks and wakes all waiters |
| WheelSpec.StepKeeps | kernel/coh.386/timeout.c:76-186 | Every step that does no harm keeps: an armed timer is on exactly one list, in the slot of its deadline, and that is later, or now and still to be scanned (with coh.386/clock.c:313-378) |
| WheelSpec.StepPlaces | kernel/coh.386/timeout.c:76-186 | Every step, also one that loses other timers, keeps every armed timer on exactly one list, in the slot of its deadline, until a scan breaks (with coh.386/clock.c:313-378) |
| WheelSpec.ArmKeepsIff | kernel/coh.386/timeout.c:76-126 | Arming keeps that if and only if the delay is at least one tick, or, for a timer whose link the scan in progress follows, it goes to the scanned slot or no other is still to fire (with coh.386/clock.c:321-336) |
| WheelSpec.CancelKeepsIff | kernel/coh.386/timeout.c:87-95 | Cancelling keeps it if and only if the timer is not both the one on a list that the scan comes to next and of this tick; the scan then follows the link that the timer was left with (with coh.386/clock.c:335-350) |
| WheelSpec.CancelDisarms | kernel/coh.386/timeout.c:87-95 | A cancelled timer is off its list, and all others are armed or not as before |
| WheelSpec.ArmedIsFirst | kernel/coh.386/timeout.c:105-124 | An armed timer is first in the slot of its deadline |
| WheelSpec.LosesTimers | kernel/coh.386/clock.c:321-375 | When a timer that the scan follows is armed for another slot, every other timer still to fire in this tick is passed over: the scan ends, and it stays armed for a tick that is over |
| WheelSpec.LostTimerFires | kernel/coh.386/clock.c:335-350 | A lost timer fires once, exactly 2^32 ticks too late |
| WheelSpec.FunctionLosesTimer | kernel/coh.386/clock.c:321-375 | Three timers and a function that does so |
| WheelSpec.CancelBreaks | kernel/coh.386/clock.c:335-372 | When that timer is cancelled, the scan comes to it all the same, though it is on no list |
| WheelSpec.FunctionBreaksScan | kernel/coh.386/clock.c:335-372 | A function that cancels two timers, the first without harm, the second with it |
| WheelSpec.FiresOnce | kernel/coh.386/timeout.c:76-126 | As long as it is not armed, cancelled or lost, an armed timer in time has fired exactly once, at its deadline, or not yet, and its tick is not over; an unarmed one does not fire; whatever happens to other timers (with coh.386/clock.c:313-378) |
| WheelSpec.ArmedTimerFires | kernel/coh.386/timeout.c:76-126 | A timer armed with n at tick t has fired exactly once, at t+n, by the end of that tick, whatever callbacks do to other timers (with coh.386/clock.c:313-378) |
| TimingWheel.Timers.Unlink | kernel/coh.386/timeout.c:87-95 | Takes the timer off whatever list it is on, through the link of its predecessor, also the one that a scan looks at next |
| TimingWheel.Timers.Attach | kernel/coh.386/timeout.c:105-124 | Puts it at the head of the slot of its 32-bit tick |
| TimingWheel.Timers.Timeout | kernel/coh.386/timeout.c:76-126 | Arms, arms again or cancels any timer at any time: one step of the machine, and exactly when it does no harm |
| TimingWheel.Timers.Timeout2 | kernel/coh.386/timeout.c:132-186 | The same, a delay of 0 only cancelling |
| TimingWheel.Timers.BeginTick | kernel/coh.386/clock.c:321-336 | The tick advances and the scan starts at its slot, in any state |
| TimingWheel.Timers.ScanOne | kernel/coh.386/clock.c:335-375 | One turn of the scan, in any state in which it is not broken, fires exactly the timers whose ticks look like this one in 32 bits |
| Pipe.StoredIsAppended | kernel/coh.386/pipe.c:553-561 | Storing behind the bytes held appends to them, around the end of the ring |
| Pipe.TakenFromFront | kernel/coh.386/pipe.c:449-460 | Reading takes from the front |
| Pipe.WholeIffBlocksSuffice | kernel/coh.386/fs3.c:587-597 | Bytes go into a pipe as a whole if and only if there is a free block for every block among theirs that the inode does not have (with coh.386/pipe.c:553-561) |
| Pipe.StopsWhereNoBlockIs | kernel/coh.386/fs3.c:587-597 | Where storing stops short, the next block is missing and those before took all free blocks |
| Pipe.FullDiskTearsRecord | kernel/coh.386/fs3.c:587-597 | With one free block 512 of 1024 bytes go into a new pipe |
| Pipe.TornRecord | kernel/coh.386/pipe.c:498-570 | The run that shows it: the write ends with ENOSPC and the reader gets the first half of the record |
| Pipe.PipeNode.FWrite | kernel/coh.386/fs3.c:690-727 | Stores block by block as much as there are blocks for, taking exactly the missing ones (with coh.386/fs3.c:587-597) |
| Pipe.PipeNode.PRead | kernel/coh.386/pipe.c:393-467 | A read gets the oldest bytes, as many as asked for and there; how it ends when there are none |
| Pipe.PipeNode.PWrite | kernel/coh.386/pipe.c:498-570 | What is written is appended, also when it is short; a write of at most PIPE_MAX bytes that need not wait enters in one piece that does not wrap, and whole exactly when the missing blocks are at most the free ones, else up to the first that cannot be had, with ENOSPC; one that must wait does not enter; a call ends done exactly when all is written, with EPIPE exactly when something is left and there is no reader, and where it must wait with nothing, EAGAIN or asleep, as O_NDELAY and O_NONBLOCK say |
| Pipe.PipeNode.WritePosition | kernel/coh.386/pipe.c:454-559 | The write position is read position plus count modulo PIPE_MAX |
| Pipe.PipeNode.WaitersDoNotBlockEachOther | kernel/coh.386/pipe.c:407-551 | A writer waits only while there is something to read |
| Pipe.PipeNode.SmallWriteWaitsIff | kernel/coh.386/pipe.c:525-531 | A small write waits exactly when the rest of the ring or the room in all is too short |
| Pipe.PipeNode.LargeWriteWaitsIff | kernel/coh.386/pipe.c:525-531 | A large write waits exactly when the pipe is full |
| Primes.FirstGuess | kernel/coh.386/nlp.c:132-136 | The first guess is at most the root and within a factor of two of it |
| Primes.NextNear | kernel/coh.386/nlp.c:138-156 | Each turn at least halves the distance of guess and quotient |
| Primes.Isqrt | kernel/coh.386/nlp.c:109-165 | The loop always ends by its convergence test within its 32 turns; the result is the root rounded up below 0xffff0000, and 65537 from there on |
| Primes.RootIsExactIff | kernel/coh.386/nlp.c:157-160 | The result is right if and only if the argument is below 0xffff0000; it is never too small for trial division |
| Primes.SmallDivisor | kernel/coh.386/nlp.c:90-99 | A composite number has a divisor up to its root |
| Primes.IsPrime | kernel/coh.386/nlp.c:70-106 | Answers yes exactly for the primes other than 2 |
| Primes.Nlp | kernel/coh.386/nlp.c:36-67 | The largest prime below the argument, 0 for arguments up to 2 |

## Left out

- Record locks: copies between user and kernel space and the access modes of the file descriptor.
- LockManager.LockTable.FreeLock: lists are sequences of records that carry the number of their pool slot, so relinking and the order in the list are modelled, pointers and the walk to the predecessor are not.
- LockSafety.RunKeepsInv: for runs without requests that wrap (`LockManager.Harmless`), which end at 2^31-1 and meet an own lock to the end of the file; what those do is the subject of `LockTop` and `LockClose`.
- LockRecords.RemoveServedIff: for lists that are not canonical, which adding leaves when a split finds no record, it is not said in advance which unlocks run out of records.
- LockWakeup.StepAttends: the wakeup belongs to the step that it ends, as the kernel is not preempted in between; hash collisions of sleeping addresses are the subject of `Gates`.
- Pages.PageSystem.CAlloc: what loading and unloading page tables does, and `pvalid`; the descriptors of an array are kept per array, not in the memory that the free lists use while the block is free (`Pages.ArraysApart` says that arrays do not overlap).
- Pages.PageSystem.CGrow: clearing the added pages, and segments of no page.
- BuddyArea.Area.AreaAlloc: requests for no page, and for a size class without a list (`BuddyArea.ClassHasListIff`), for which the source reads outside its table.
- BuddyArea.Area.constructor: an arena of exactly 2^NBUDDY units, which the table does not fit (`BuddyArea.ArenaFitsTableIff`).
- Pages.PageSystem.MapPhysUser: the tests of the physical addresses are a parameter, and loading the page table is left out.
- The bit map of the arena is an array of booleans; the packing into words is not modelled. INSERT2 stores into the header and reads it in one expression; the model reads first.
- Free list: bad lists, I/O errors, and the early return for a duplicate block, which keeps the gate locked; callers free only blocks that are not free. `canlong` and `canshort` are left out: numbers are stored low byte first.
- FsIO.FileSystem.ITruncate: pipes and other kinds of inode, and the times of the inode.
- FsIO.FileSystem.FWrite: block special files, faults of the caller's memory, and how the buffer is written back.
- FsRead.FRead: block special files, the asynchronous reads ahead, and when reading ahead is switched on; the number of blocks to read ahead is a parameter below the size of the list.
- The file system modules read and write the disk directly; that the buffer cache makes no difference is the subject of `CacheSpec.CacheIsTransparent`.
- Cache.BufferCache.BClaim: two processes that miss the same block at the same time, buffers that do not belong to the fixed set, and I/O errors; the hash is taken without overflow.
- Cache.BufferCache.SyncDirty: waiting for buffers in transfer and the order of writing, which `SyncSort` covers; a process that syncs while it holds a buffer waits for itself in the source.
- Scheduler.Dispatcher.Dispatch: the idle loop, the context switch, and stamps that come near 2^31 or a quantum that falls below -2^31; the run queue is a sequence in the order of the scan.
- Gates.Sleepers.XSleep: signals; a process that is woken while it waits for a gate tries again with `GateLock`. The queues are sequences.
- WheelSpec.FiresOnce: runs end when a scan has stored through an empty link; what becomes of the kernel then is left out.
- Pipe.PipeNode.PRead: faults of the caller's memory; readers and writers are counted by the caller, polling, `uchsize` and the size of the inode, which covers what is held, are left out.
- Pipe.PipeNode.PWrite: other processes that allocate or free blocks during the call; the number of free blocks is a parameter. The bytes of the blocks are one array.
- The driver, interrupts, page tables, signals, system-call entry, permission checks and accounting.
