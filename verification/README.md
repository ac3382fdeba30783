# Verification of ShellBox

Dafny models of the parts of ShellBox, a user-mode AArch64 Linux emulator, whose guarantees span several
functions or threads, with proofs of those guarantees. `dafny verify dfyconfig.toml` checks everything.

| files | subject |
|---|---|
| `BlockCache.dfy`, `BlockCacheSafety.dfy`, `BlockDispatch.dfy` | translated blocks: reclamation and dispatch under lock-free per-thread caches, as a transition system of any number of threads whose steps are the accesses other threads can see |
| `BlockIndex.dfy` | the hash and page index of blocks, their chained exits, and invalidation |
| `CompileProtocol.dfy`, `BlockFreshness.dfy` | compiling a block while other threads store to its pages, and whether live blocks stay up to date |
| `TlbCoherence.dfy`, `GuestMemory.dfy`, `Tlb.dfy` | the software TLB under table changes by other threads, and the loads and stores on top of it |
| `FileLocks.dfy`, `InodeLocks.dfy` | POSIX record locks |
| `PollSets.dfy`, `PollRuns.dfy`, `Poll.dfy` | poll sets, shared host registrations, oneshot and edge-triggered delivery, epoll calls |
| `PathSpec.dfy`, `PathLinks.dfy`, `Paths.dfy` | the two path normalizers, in their buffers, and what links mean |
| `FakeDb.dfy`, `BindRoutes.dfy`, `BindStash.dfy` | path rows, bind-mount routing, and moving things aside under a bind |
| `FdTables.dfy`, `DupRaces.dfy` | descriptor tables and reference counts; the calls that change a table without its lock, interleaved |
| `ScmQueue.dfy` | passing descriptors over local sockets |
| `TtyLines.dfy`, `Tty.dfy` | canonical terminal input |

Code that changes state is a class whose methods are proved against functions on values; what the code
promises is then proved of those functions, and of runs of them. Protocols between threads are transition
systems with one step per shared access, and their results are about every run. `{:induction false}` marks
lemmas whose body is the proof.

Three conventions recur. An answer of the host (a host poll registration, a link, an access probe, whether
memory could be had) is a parameter and may be anything unless a contract says otherwise. A predicate such
as `Hashed` or `Paged` names a fact so that quantifiers over it are used only where it is mentioned. A state
field that only records history, such as `sent`, `dirtied` or `verified`, is read by no step.

## Where the code does not do what is asked of it

Each of these is proved, with the exact condition or a concrete run.

- The compile protocol needs stores to look at the mark and write as one. With the two apart, a store let
  through before the snapshot can tear a verified block, and nothing else can (`CompileProtocol.QuietIsExact`).
- A store first invalidates the blocks of its page and then clears the page's mark, so a block compiled and
  inserted between the two stays live with bytes the store is about to change
  (`BlockFreshness.LookBeforeCompile`); with a page's bucket used for the first time, one inserted right after
  its check, too (`BlockFreshness.LookBeforeFirstInsert`). A block from the verified exit can get out
  of date exactly when it is inserted with such a store under way or a mark gone
  (`BlockFreshness.TimelyIsExact`).
- The TLB's give-up exit after nine attempts stamps an entry that keeps hitting with a host page that is no
  longer the page's exactly when the page's translation changed before the stamp
  (`TlbCoherence.GiveUpIsStaleExactly`, `TlbCoherence.GiveUpCanStampAStaleEntry`). Entries of the verified
  exit hit wrongly only between an alteration of their own page and the next bump
  (`TlbCoherence.HitsAgreeWithTheTable`, `TlbCoherence.AlteredPageHitsStale`).
- A `tlb_write` across two pages is not the byte stores of the value exactly when the second page is
  copy-on-write on the host page of the first and the first part of the value was not there already
  (`Tlb.WholeStoreIsByteStores`).
- A record lock request whose end or start leaves `off_t` becomes one that ends before it starts. It is
  granted, goes into the list and locks nothing (`InodeLocks.OverflowedRequest`). A lock at the lowest offset
  is taken for the neighbour of one that ends at the highest and merged with it, over another owner's lock
  between them (`InodeLocks.SeamRun`). Requests of these two kinds, and no others, can leave a list with
  locks of one owner that overlap or with conflicting owners (`InodeLocks.SetlkKeepsInvExactly`).
- A wakeup of a fired oneshot registration is lost to it: the edge is not reported after it is armed again
  (`PollRuns.WakeupBeforeMod`).
- An unaligned 64-bit store that faults leaves the bytes before the fault stored, where a store through
  `tlb_write` leaves none (`Tlb.SoftTlb.Store64`, `Tlb.SoftTlb.WriteBytes`).
- `__path_normalize` refuses paths one byte shorter than its header (`fs/path.h:29-32`) says it would, and
  than `bind_mount_normalize` allows (`PathSpec.NormalizeIsOneByteShort`, `Paths.NormalizersAgree`).
- `path_is_normalized` accepts one trailing slash (`PathSpec.NormalizedMeaning`).
- A bind over a mount point without a row, moved to another host path and taken away, leaves a row that was
  never there; with a row, or without the move, everything comes back (`BindStash.UndoneExactly`).
- Reverse translation misroutes exactly when, for what the forward direction made, another mount's host path
  is a longer match or an equal one in an earlier slot (`BindRoutes.RoundTripExactly`,
  `BindRoutes.NestedHostsMisroute`).
- Descriptor passing gets out of step when a message with descriptors is received without a control buffer,
  into buffers that cannot be written, or while another receiver is between the socket and the queue
  (`ScmQueue.WithoutControlBufferOutOfStep`, `ScmQueue.UnwritableBufferOutOfStep`,
  `ScmQueue.TwoReceiversOutOfStep`). Of the steps modelled exactly these can lead to a message with the wrong
  set (`ScmQueue.CarefulIsExact`).
- `dup2`, `dup3` and `F_DUPFD` store into the table without its lock. A descriptor opened by another thread
  between the close and the store is overwritten and its description never destroyed; in a table with one
  thread no reference is ever lost (`DupRaces.OverwrittenLeaks`, `DupRaces.ConservedExactlyAlone`).
- An end of file typed right after a line, before that line is read, is never reported
  (`TtyLines.EofAfterLineIsLost`, `TtyLines.LostEof`).
- `dup2` and `dup3` of a descriptor onto itself clear its close-on-exec bit unless asked to set it
  (`FdTables.Kernel.Dup3` with both descriptors equal).

## Model

| member | source | states |
|---|---|---|
| BlockCacheSafety.NoUseAfterFree | asbestos/asbestos.c:583-613 | From the initial state, in every interleaving of threads entering, flushing caches, looking up, compiling, chaining, executing, invalidating, leaving and freeing, no step reads, writes or frees a block that was freed before it. |
| BlockCacheSafety.StepKeepsInv | asbestos/asbestos.c:622-668 | Every step of every thread and of an invalidation keeps the shared invariant: allocated and freed blocks are apart, exits lead to blocks that are not freed, a cache stamped with the current generation holds only blocks that are live or being invalidated now, and program counters agree with the locks. |
| BlockCacheSafety.StepIsSafe | asbestos/asbestos.c:846-872 | In a state of the invariant no enabled step touches a freed block, the jump along a patched exit of a block that is itself already discarded included. |
| BlockCacheSafety.ChainsStayLive | asbestos/asbestos.c:857-869 | In every reachable state a patched exit of a live block leads to a live block, and outside an invalidation a thread whose generation is current holds live blocks only. |
| BlockCacheSafety.ReachedInv | asbestos/asbestos.c:1078-1096 | The invariant holds after any run of steps. |
| BlockDispatch.DispatchRunsWhatWasAsked | asbestos/asbestos.c:787-822 | In every reachable state the block a thread has in hand, from its cache, the hash or the compiler, was translated for the address the thread asked for last, and so was the block a thread goes on to execute; said of runs. |
| BlockDispatch.HitExactlyWhenAsked | asbestos/asbestos.c:787-803 | In every reachable state a thread at dispatch may take its cache's entry if and only if that block was translated for the address asked for, and looks further if and only if not. |
| BlockDispatch.ChainsLeadWhereTheGuestWent | asbestos/asbestos.c:857-869 | In every reachable state a patched exit stands where the translation held the guest address of the block it leads to, and every other exit holds what the translation put there. |
| BlockDispatch.ChainingIsComplete | asbestos/asbestos.c:857-869 | In every reachable state chaining two blocks that are not discarded leaves no exit of the first unpatched that goes to the address of the second. |
| BlockDispatch.DispatchSeesCurrentBlocks | asbestos/asbestos.c:622-668 | A thread that arrives at dispatch in any run has in its block and return caches live blocks only, apart from those the invalidation under way is taking. |
| BlockDispatch.LastIsTheBlockExecuted | asbestos/asbestos.c:872 | In every reachable state the block a thread is about to execute is its last block, the one chaining patches next. |
| BlockDispatch.DispatchGetsThere | asbestos/asbestos.c:787-910 | From every reachable state with the lock free, a thread at dispatch has a run of its own steps at whose end it executes a block translated for the address it asked for. |
| BlockIndex.Asbestos.constructor | asbestos/asbestos.c:342-353 | An empty index is consistent. |
| BlockIndex.Asbestos.MoveBucket | asbestos/asbestos.c:451-455 | Relinking one old bucket leaves every block of it on its bucket of the new table, each once. |
| BlockIndex.Asbestos.ResizeHash | asbestos/asbestos.c:444-459 | A resize keeps exactly the live blocks, each on the bucket of its address for the new size, and leaves the page lists alone. |
| BlockIndex.Asbestos.Insert | asbestos/asbestos.c:461-472 | A new block joins the hash, its one or two page lists and both totals; the table doubles exactly when there are twice as many blocks as buckets; every index promise is kept. |
| BlockIndex.Asbestos.Lookup | asbestos/asbestos.c:474-484 | The live block at the address, or none exactly when no live block is there. |
| BlockIndex.Asbestos.DisconnectExits | asbestos/asbestos.c:593-599 | For one exit index: the block is off the incoming list it was on, every live exit that led to it holds its guest address again, nothing else changed, and patched exits and incoming lists of the rest still say the same. |
| BlockIndex.Asbestos.Disconnect | asbestos/asbestos.c:583-600 | Both exit indexes, the hash, the page lists and the totals together: the block is in none of them and the others are consistent. |
| BlockIndex.Asbestos.Evict | asbestos/asbestos.c:388-393 | An invalidated block leaves the live set, is marked and joins the discarded list, and the index is consistent again. |
| BlockIndex.Asbestos.EvictList | asbestos/asbestos.c:385-394 | The walk over one page list takes exactly the live blocks listed there. |
| BlockIndex.Asbestos.InvalidateRange | asbestos/asbestos.c:375-400 | Exactly the live blocks listed under a page that shares a bucket with a page of the range are discarded, and the generation moves by one exactly when there was one. |
| BlockIndex.Asbestos.InvalidatePage | asbestos/asbestos.c:402-419 | The same for one page, the early return with both lists empty included. |
| BlockIndex.Asbestos.InvalidateAll | asbestos/asbestos.c:420-442 | No live block is left, and the generation moves exactly when there was one. |
| BlockIndex.Asbestos.Chain | asbestos/asbestos.c:846-872 | When neither block is discarded the exits of the last block that hold the new one's address become jumps to it, entered on its incoming lists; otherwise nothing changes. The index stays consistent. |
| BlockIndex.Asbestos.FreeJetsam | asbestos/asbestos.c:607-613 | What is left allocated is exactly the live blocks, unchanged. |
| BlockIndex.RangeIsClear | asbestos/asbestos.c:382-396 | After a range is invalidated no live block starts or ends in it. |
| BlockIndex.LiveExitsLeadToLive | asbestos/asbestos.c:593-599 | In a consistent index no exit of a live block leads to a discarded block. |
| BlockIndex.NumBlocksCountsLive | asbestos/asbestos.c:461-463 | num_blocks is the number of live blocks. |
| BlockIndex.ChainedExits | asbestos/asbestos.c:861-867 | Chaining changes exactly the exits of the last block that hold the address of the next one. |
| BlockIndex.EvictConsistent | asbestos/asbestos.c:583-600 | Disconnecting, marking and moving one block keeps every promise about exits, totals, addresses and the discarded list. |
| BlockIndex.RestoreChains | asbestos/asbestos.c:593-599 | One step of the walk over incoming jumps keeps exits and incoming lists in agreement. |
| CompileProtocol.VerifiedBlockIsFaithful | asbestos/asbestos.c:548-579 | Whatever stores and remaps do meanwhile, a block returned through the verified exit was decoded from bytes that no store or remap changed between the start of the read and the final check, on both pages of a crossing block. |
| CompileProtocol.StepKeepsInv | asbestos/asbestos.c:526-538 | Every step of the compiler and of the others keeps: while the change counter stands at the snapshot, a page that is marked or unmapped holds what was read from it. |
| CompileProtocol.WithoutQuietABlockCanBeTorn | asbestos/asbestos.c:526-538 | Whenever the assumption fails at a snapshot, that is, the first page is marked and a store let through earlier is still to write one of the pages marked, some continuation returns, through the verified exit, a block that is not what memory held. |
| CompileProtocol.QuietIsExact | asbestos/asbestos.c:526-538 | The assumption holds at a snapshot if and only if no continuation that keeps it returns, through the verified exit, a block that is not what memory held. |
| CompileProtocol.AloneTwoAttempts | asbestos/asbestos.c:550-578 | With no store and no remap in between the loop never gives up, returns at the first or second attempt, and returns unprotected only if the first page is not mapped. |
| CompileProtocol.MarkedPagesAreWalked | kernel/memory.c:917-927 | In every reachable state no TLB entry lets a store to a marked page past the walk of the page table: marking moved the generation. |
| CompileProtocol.OnlyDirtiedChange | asbestos/asbestos.c:548-579 | In any run of anyone's steps a page not recorded as changed holds what it held. |
| CompileProtocol.GivesUpExactly | asbestos/asbestos.c:567-578 | In any run a block that fails its check is thrown away only if it is one of the first sixteen compiled; one accepted unverified is at least the seventeenth and has failed its check. |
| CompileProtocol.OthersMayDoAnything | kernel/memory.c:834-852 | At any moment others may map, unmap, or store any byte; a store that walks the page table takes the mark. |
| BlockFreshness.LiveBlocksAreFresh | asbestos/asbestos.c:402-416 | In every run of stores, remaps and compilations whose insertions find their pages still marked and no store past its look at them, every live block holds the bytes of memory at every moment. |
| BlockFreshness.TimelyIsExact | kernel/memory.c:834-852 | An insertion finds its pages still marked and no store past its look if and only if every continuation of such insertions keeps all live blocks up to date. |
| BlockFreshness.StepKeepsInv | kernel/memory.c:834-852 | Every step keeps: a live block's pages are marked, their bucket is used, no store to them is under way, and its bytes are memory's. |
| BlockFreshness.LookBeforeCompile | kernel/memory.c:834-852 | From any state with the compiler idle there is a run after which a block is live and out of date, its page is not marked, and no store is under way that was not before. |
| BlockFreshness.LookBeforeFirstInsert | asbestos/asbestos.c:402-416 | The same with the look, which takes no lock on a bucket never used, between check and insertion. |
| BlockFreshness.AnythingMayHappen | asbestos/asbestos.c:402-416 | With the index lock free any page may be mapped anew, unmapped or stored to, its mark gone each time, and the look that comes first leaves no live block of the page. |
| TlbCoherence.HitsAgreeWithTheTable | emu/tlb.c:66-129 | In every state reached under any table changes by any thread, of any number of pages to a bump, a hit on an entry from the verified exit gives the host page and the permission the page table gives now, unless that page was altered after the last bump. |
| TlbCoherence.OneBumpRetiresTheRange | kernel/memory.c:484-521 | After any number of pages altered and one bump no page counts as altered and no entry hits, whatever exit stamped it. |
| TlbCoherence.AlteredPageHitsStale | kernel/memory.c:484-521 | The exception is needed: a page altered and not bumped yet goes on hitting with its old host page. |
| TlbCoherence.StepKeepsInv | emu/tlb.c:85-103 | Every access of the miss loop and every change of the table keeps: an entry stamped with the current generation agrees with the table unless its page was altered after the last bump. |
| TlbCoherence.GiveUpCanStampAStaleEntry | emu/tlb.c:94-100 | The give-up exit does not keep this: from any start there is a run whose ninth attempt stamps an entry that goes on hitting with the old host page. |
| TlbCoherence.GiveUpIsStaleExactly | emu/tlb.c:83-118 | Whatever others do between the last translation of the ninth attempt and the stamp, the entry agrees with the table if and only if the page's translation at the stamp gives the host page it gave then. |
| TlbCoherence.UndisturbedTakesTwoAttempts | emu/tlb.c:76-103 | With the table changing only under the thread's own first translation, the loop takes at most two attempts and stamps only verified translations. |
| GuestMemory.TranslateMeaning | kernel/memory.c:840-892 | After a translation for a store the page takes direct stores, no guest byte and no permission has changed, a second translation does nothing, and any change moved the counter. |
| GuestMemory.StoresStopAtTheFault | emu/tlb.c:244-255 | Byte stores go on exactly up to the first address that does not take them. |
| GuestMemory.StoreSplit | emu/tlb.c:244-255 | Storing a concatenation is storing the first part and, if it all went through, the second. |
| GuestMemory.TranslateAfterPut | kernel/memory.c:861-885 | Making another page ready, its copy included, commutes with stores to a page backed by different host memory. |
| Tlb.ChangeKeepsCoherence | emu/tlb.h:50-62 | A change of the table by anyone leaves no entry that hits wrongly once the counter has moved. |
| Tlb.SoftTlb.Flush | emu/tlb.c:26-30 | An empty TLB is coherent. |
| Tlb.SoftTlb.Refresh | emu/tlb.c:8-24 | The TLB is coherent with the given address space, the same one or another. |
| Tlb.SoftTlb.HandleMiss | emu/tlb.c:66-129 | The host address the table gives after the translation, or a fault with its address; coherent afterwards, in at most two attempts without interference. |
| Tlb.SoftTlb.ReadPtr | emu/tlb.h:50-62 | Hit or miss, the host address the page table gives, and memory untouched. |
| Tlb.SoftTlb.WritePtr | emu/tlb.h:86-102 | Hit or miss, the host address of a page made ready for stores: writable, not copy-on-write, and holding no compiled code. |
| Tlb.SoftTlb.ReadBytes | emu/tlb.h:64-72 | The bytes one at a time through the page table, across a page boundary too; a fault exactly when one is not mapped, with the address that faulted. |
| Tlb.SoftTlb.WriteCrossPage | emu/tlb.c:52-64 | Both pages are made ready before a byte is written; success means the byte stores of the whole value, failure that every guest byte reads as before. |
| Tlb.SoftTlb.WriteBytes | emu/tlb.h:104-112 | Succeeds exactly when every byte may be stored and then leaves the byte stores of the value through the table made ready; a fault changes no guest byte. |
| Tlb.SoftTlb.Load64 | emu/tlb.c:146-168 | The little-endian word of the eight bytes through the page table for every address, or a fault when one is not mapped. |
| Tlb.SoftTlb.Store64 | emu/tlb.c:244-264 | For every address exactly the single-byte stores of the little-endian word, one page preparation at a time; a fault leaves exactly the bytes before it stored. |
| Tlb.SoftTlb.StoreUnaligned | emu/tlb.c:246-255 | The byte loop is the single-byte stores of the word and reports failure exactly when they stop early. |
| Tlb.WholeStoreIsByteStores | emu/tlb.c:52-64 | Making both pages ready and copying leaves the same memory as storing the bytes one after the other if and only if the second page is not copy-on-write on the host page of the first, or the first part of the value is what was there. |
| Tlb.StoredIsLoaded | emu/tlb.h:104-112 | A load of the bytes just stored finds them, two guest pages on one host page included. |
| Tlb.WordRoundTrip | emu/tlb.c:148-158 | A word written out byte by byte and read back is the word. |
| Tlb.ByteOfWord | emu/tlb.c:253 | Byte i of the little-endian form is what shifting by 8i leaves in the low byte. |
| FileLocks.PlaceMeaning | fs/lock.c:69-135 | A granted request sets the requester's type, or none for an unlock, exactly on its interval; no other offset and no other owner changes, so the early break skips none of the requester's locks. It may end before it starts, and then changes the type of no byte; locks at the lowest offset are set apart. |
| FileLocks.PlaceKeepsInv | fs/lock.c:50-136 | After a granted request that does not end before it starts, nor lock from the lowest offset on, locks are grouped by owner, one owner's are apart with no same-type neighbours left adjacent, and overlapping locks of different owners are all read locks. |
| FileLocks.PlaceKeepsSound | fs/lock.c:50-136 | After any granted request, one that ends before it starts included, locks are grouped by owner, one owner's locks that share a byte say the same of it, and different owners share a byte only to read. |
| FileLocks.SignalsExactly | fs/lock.c:104-105 | For any request, waiters are signalled exactly when the test for overlap finds a lock of the requester of another type. |
| FileLocks.SignalsOnChange | fs/lock.c:104-105 | A request that does not end before it starts signals the waiters if and only if the requester holds some of its bytes with another type. |
| FileLocks.PlacePids | fs/lock.c:85-134 | Every lock after a granted request is what remains of one before it, under the process that set it, or the one lock the request made, under its own process and over its whole interval. |
| FileLocks.WeakeningSignals | fs/lock.c:104-105 | Any request, in any reachable list, that weakens the requester's lock at some offset signals the waiters. |
| FileLocks.WithoutMeaning | fs/lock.c:245-254 | Removing an owner clears that owner everywhere and leaves the others. |
| FileLocks.WithoutKeepsInv | fs/lock.c:245-254 | Removing an owner keeps the list grouped, apart and free of conflicts. |
| FileLocks.RunKeepsSound | fs/lock.c:217-254 | In every state reached by any requests and removals, ones that end before they start included and locks at the lowest offset left out, types form a map for each owner, writers exclude, and owners are grouped. |
| FileLocks.RunKeepsInv | fs/lock.c:217-254 | When moreover no request ends before it starts, one owner's locks are also apart and coalesced in every such state. |
| FileLocks.RunMeaning | fs/lock.c:217-254 | After any run of such requests and removals, ones that end before they start included, the type at each owner and offset is that of the last granted request that covers it, or none after a removal. |
| FileLocks.RefusedExactly | fs/lock.c:10-19 | Over a well-formed list a request that does not end before it starts is refused if and only if it locks, another owner's type at some byte of it is not none, and that type or its own is the write lock. |
| FileLocks.RefusedWhenItMust | fs/lock.c:50-58 | Over any list and for any request, that is refused. |
| FileLocks.ListIsByteMap | fs/lock.c:50-136 | After any run of such requests and removals from an empty list, the list denotes the map from owners and bytes to types that a byte-by-byte reading of the rules gives, refusals included; the map knows no list and no intervals that overlap. |
| FileLocks.SweepKeepsShape | fs/lock.c:71-129 | The single pass, while the request grows, leaves remnants that are apart from it and from each other. |
| FileLocks.SweepKeepsMeaning | fs/lock.c:83-128 | At every offset the remnants and the grown request together say what the original request laid over the original locks says, for any request and any sound list. |
| InodeLocks.InodeData.Test | fs/lock.c:25-32 | The first lock in the list that conflicts, or the end of the list. |
| InodeLocks.InodeData.Acquire | fs/lock.c:50-136 | The in-place pass over the list: refused exactly when another owner's lock conflicts, which FileLocks.RefusedExactly says of bytes, otherwise the list and the signals the specification gives. |
| InodeLocks.InodeData.SweepList | fs/lock.c:69-129 | The loop with its early break edits exactly the requester's group. |
| InodeLocks.InodeData.RemoveOwnedBy | fs/lock.c:245-254 | Exactly the locks of other owners remain, in order, and nobody is signalled. |
| InodeLocks.InodeData.Getlk | fs/lock.c:196-215 | The error cases in order, the first conflicting lock written out, or "unlocked"; over a well-formed list "unlocked" if and only if no byte asked for is locked by another owner with one of the two writing. |
| InodeLocks.InodeData.Setlk | fs/lock.c:217-243 | The error cases in order, and otherwise one attempt with its effect on list and signals; every refusal leaves both alone. Over a well-formed list EAGAIN if and only if it locks and a byte asked for is locked by another owner with one of the two writing. |
| InodeLocks.FlockDenotes | fs/lock.c:140-185 | The lock has the type and owner of the call, counts from 0, the position or the size as asked, and covers exactly the bytes the struct flock names if and only if the first and the last of them are off_t values; errors of lseek and fstat, and EINVAL, come back as they are. |
| InodeLocks.ProperExactly | fs/lock.c:170-179 | With off_t sums that wrap, the lock does not end before it starts if and only if start + len - 1, or start + len for a negative length, does not leave off_t. |
| InodeLocks.RequestKeepsInvExactly | fs/lock.c:50-136 | Over lists without a lock at the lowest offset, a request keeps every well-formed list well formed if and only if it does not end before it starts and it is an unlock, starts above the lowest offset, or ends at most one below the highest; or it is an unlock that ends at the lowest offset. |
| InodeLocks.SetlkKeepsInvExactly | fs/lock.c:217-243 | F_SETLK does so if and only if its sums do not leave off_t and the interval is one of these; or it unlocks up to the lowest offset. |
| InodeLocks.SeamRun | fs/lock.c:21-23 | Three calls from an empty list after which one owner reads and another writes the same byte: the last reads ten bytes from the lowest offset, and start - 1 wraps. |
| InodeLocks.OverflowedRequest | fs/lock.c:170-179 | A write lock of the greatest length from byte 5 on is granted, enters the list with its end below its start, and covers no byte. |
| InodeLocks.FlockRoundTrip | fs/lock.c:184-194 | Writing a lock out and reading it back gives the same lock if and only if it ends at the greatest offset or its length is an off_t value. |
| InodeLocks.GetlkPredictsSetlk | fs/lock.c:196-243 | F_GETLK says "unlocked" exactly when F_SETLK with the same argument must be granted, and otherwise describes a lock another owner holds on all of its bytes, some of them asked for, with one of the two writing. |
| PollSets.UnionMeaning | fs/poll.c:100-112 | A bit is in the union exactly when an armed registration of the description asks for it, and is asked of the host exactly when it moreover is not the oneshot bit. |
| PollSets.ScanMeaning | fs/poll.c:405-447 | A registration that is reported was pending and is marked delivered, with exactly its pending bits and data; any other is untouched, and was pending only if the batch was full. |
| PollSets.RemoveMeaning | fs/poll.c:197-201 | Exactly the registration of the pair is gone. |
| PollRuns.OneshotOncePerArm | fs/poll.c:426-440 | Over any run, between two reports of a oneshot registration it was added or modified. |
| PollRuns.EdgeOncePerRenewal | fs/poll.c:442-444 | Over any run, between two reports of a bit of an edge-triggered registration it heard a wakeup or host event with that bit, was added, or was modified not to ask for the bit. |
| PollRuns.ReportedExactly | fs/poll.c:405-457 | After any run a bit would be reported of a registration if and only if it is ready and asked for, the registration was armed since its last oneshot report and, if edge-triggered, the bit was renewed since it was last reported. |
| PollRuns.WakeupBeforeMod | fs/poll.c:327-333 | A bit spent before a wakeup and a following modification is reported if and only if the wakeup had the bit and the registration was edge-triggered and not fired. |
| PollRuns.PairsStayUnique | fs/poll.c:131-138 | In every reachable set the (fd number, description) pairs are unique. |
| PollRuns.RegisteredAsAsked | fs/poll.c:126-280 | After any run a pair is registered if and only if its last addition that took was not followed by a removal, and then with the types and the data of the last addition or modification that took; said of the calls alone. |
| PollRuns.EventsCarryWhatWasAsked | kernel/epoll.c:132-138 | Every event handed out after any run carries the data of that call and no bits but ready ones it asked for, HUP and ERR. |
| PollRuns.StepKeepsInv | fs/poll.c:327-345 | After every operation each registration remembers, in its fired flag and triggered bits, all the log of reports forbids it to report. |
| PollRuns.ReportsAreTheEvents | fs/poll.c:419-422 | What the log calls reports are the events handed out, in order. |
| Poll.PollSet.Refresh | fs/poll.c:100-112 | An applied update registers the union of the armed registrations' types; a refused one leaves what the host left. |
| Poll.PollSet.Add | fs/poll.c:126-184 | EEXIST for a pair already there; otherwise the registration in front and the host registration right; a refused update that is rebuilt leaves the set and the host as before the call. |
| Poll.PollSet.Del | fs/poll.c:186-220 | ENOENT or the pair removed, and the host registration right if the update is applied. |
| Poll.PollSet.Mod | fs/poll.c:222-265 | The one registration changed and re-armed, keeping the spent edges still asked for, with the host registration right; a refused update that is rebuilt leaves all four fields and the host as before. |
| Poll.PollSet.Cleanup | fs/poll.c:267-280 | Every registration of the description is gone, and the host registration with it. |
| Poll.PollSet.Wakeup | fs/poll.c:327-345 | Exactly the armed edge-triggered registrations of the description get their bits back, and a waiter is notified exactly when there is an armed one. |
| Poll.PollSet.HostEvent | fs/poll.c:594-606 | Every edge-triggered registration of the description the host named gets its bits back. |
| Poll.PollSet.ScanReady | fs/poll.c:405-447 | The scan in place is the specified one, and host registrations stay right as oneshots fire. |
| Poll.PollSet.AcquireWait | fs/poll.c:362-387 | The notify pipe exists exactly while someone waits, the failure paths included. |
| Poll.PollSet.ReleaseWait | fs/poll.c:349-357 | The last waiter takes the pipe with it. |
| Poll.MatchingIsUnique | fs/poll.c:236-260 | The set determines the host registrations, so rebuilding brings back the same ones. |
| Poll.EpollCtl | kernel/epoll.c:47-117 | Each error exactly when: EINVAL, EPERM, EFAULT for a missing event that is needed, EEXIST, ENOENT, the refusal of the host; otherwise the change to the set the operation names, and no registration changed on any error. |
| Poll.EpollWaitPass | kernel/epoll.c:132-160 | Never more events than asked for nor than 1024, EINVAL for none, and the scan of the set with that bound. |
| PathSpec.NormalizeIsFold | fs/path.c:119-275 | Without links the result is the fold of the path's components over the base, `.` dropped and `..` popping but never below the process's root; ENOENT for an empty path, ENAMETOOLONG exactly when the base or a path on the way is too long. |
| PathSpec.NormalizeStaysUnderRoot | fs/path.c:140-148 | The result keeps the root's names in front, holds no dot names, is accepted as normalized and fits the buffer with its terminator. |
| PathSpec.NormalizeIsOneByteShort | fs/path.c:195-220 | A name whose path would fill the buffer exactly, terminator included, is refused. |
| PathSpec.NormalizedMeaning | fs/path.c:342-353 | path_is_normalized accepts exactly the spellings of stacks of names, and those with one slash after them. |
| PathSpec.CompsOfRender | fs/path.c:119-275 | The components of a spelled stack are the stack. |
| PathSpec.WalkIsFold | fs/path.c:182-266 | The component loop from any stack under the root is the fold, with its exact failure condition. |
| PathLinks.NormalizeFollowsLinks | fs/path.c:119-275 | With any links and any obstacles the result is a fold of components over a stack of names: a name that is a link gives way to the components of its target, through the stack again or from the process's root, with what was still to come behind them; five links are followed and the sixth is ELOOP. |
| PathLinks.LinkIsReplaced | fs/path.c:222-249 | In a directory whose own names are no links, a link is replaced by its target in place: a relative one goes on from the directory, an absolute one from the process's root, and the rest of the path follows. |
| PathLinks.ThroughSettled | fs/path.c:236-249 | Going through the directory's names a second time changes nothing when none of them is a link or in the way. |
| PathLinks.CompsJoin | fs/path.c:244-248 | The components of two strings with a slash between them are those of the first and then those of the second. |
| Paths.PathNormalize | fs/path.c:119-275 | Character by character in a fixed buffer, without leaving it: the specified result with its terminator, or the specified error, which PathLinks.NormalizeFollowsLinks and PathSpec.NormalizeIsFold say of components. |
| Paths.WalkComponents | fs/path.c:182-274 | The loop with its running budget computes the walk from where it starts. |
| Paths.PushName | fs/path.c:206-220 | A slash and the whole name are in the buffer with the budget kept, or the budget is exhausted exactly when they do not fit. |
| Paths.PopComponent | fs/path.c:191-196 | The last component goes unless what is there belongs to the root; length and budget keep their sum. |
| Paths.IsNormalized | fs/path.c:342-353 | The scan decides what is normalized. |
| Paths.BindNormalize | fs/fake.c:299-338 | The canonical form of the whole path, or false exactly when a path on the way does not fit; never a path cut short. |
| Paths.CanonicalIsIdempotent | fs/fake.c:299-338 | The canonical form of a canonical form is itself. |
| Paths.NormalizersAgree | fs/fake.c:299-338 | On every path without links and with root "/", both normalizers compute the same function up to how the root is written, and differ exactly where a path on the way has the one length only one of them allows. |
| FakeDb.RangeIsSubtree | fs/fake-db.c:242-278 | The byte range of the queries is exactly the path and its descendants. |
| FakeDb.UnderMeaning | fs/fake-db.c:242-278 | A path counts as below a directory exactly when it is the directory's with nothing, or a slash and anything, behind it. |
| FakeDb.RenamedAt | fs/fake-db.c:242-262 | What a rename does to each path: moved rows under the new name with their inodes, nothing left under the old, all others as they were. |
| FakeDb.RenameRoundTrip | fs/fake-db.c:242-262 | Renaming a subtree to an unused name and back changes nothing. |
| FakeDb.Database.GetInode | fs/fake-db.c:171-179 | The inode of the row, and 0 exactly when there is none. |
| FakeDb.Database.Create | fs/fake-db.c:193-202 | A row with an inode no table has heard of. |
| FakeDb.Database.Rename | fs/fake-db.c:242-262 | The range query and the prefix change move exactly the subtree. |
| FakeDb.Database.DeleteSubtree | fs/fake-db.c:264-278 | The range query deletes exactly the subtree. |
| BindRoutes.Find | fs/fake.c:345-364 | The longest mount above the path, the first of that length, or none exactly when there is none. |
| BindRoutes.Translate | fs/fake.c:377-415 | The canonical path under its longest mount, and no route at all when it does not fit. |
| BindRoutes.Resolve | fs/fake.c:216-281 | The guest path under the mount with the longest host path, the first of that length, that the given path is or goes on from, as it is or without /private, and that is neither the rootfs nor above it; no answer exactly when there is none or it does not fit. |
| BindRoutes.ContainsExactly | fs/fake.c:191-203 | A mount is skipped if and only if a rootfs is registered and it is the mount's host path or goes on below it. |
| BindRoutes.AccountedMeaning | fs/fake.c:242-264 | A mount accounts for a host path with some rest exactly when the path is its host path and the rest, or /private before those for a host path under /var, and the mount is neither the rootfs nor above it. |
| BindRoutes.TranslateThenResolve | fs/fake.c:216-281 | Reverse translation of a forward translation gives the canonical form of the guest path, when no two host paths clash and the rootfs is neither the mount's host path nor below it. |
| BindRoutes.TranslatedIsResolvable | fs/fake.c:216-281 | Under the same assumptions the reverse direction finds that very mount. |
| BindRoutes.RoundTripExactly | fs/fake.c:216-281 | For any table and path the round trip holds if and only if the mount that made the host path is the longest that accounts for it, when mounts have different guest paths and the rootfs is neither the mount's host path nor below it. |
| BindRoutes.NestedHostsMisroute | fs/fake.c:216-281 | Whenever a mount with a longer host path accounts for the host path made, the reverse direction gives another guest path. |
| BindStash.Fakefs.Bind | fs/fake.c:1403-1576 | The slot of the path filled, a free one only if it had none, false exactly when none is left; tree and rows stashed only when the host path changes; the mount point has a row with the mode of the mount. |
| BindStash.PointMode | fs/fake.c:1469-1473 | After a bind the mount point's row has the type of what is bound and is readable by all, writable by its owner exactly if the bind is not read-only and by nobody else, executable exactly if it is a directory; no other stat changes, and a bind to another host path leaves a link to it. |
| BindStash.Fakefs.Unbind | fs/fake.c:1578-1618 | The slot freed, tree and rows put back, and nothing done when nothing was mounted. |
| BindStash.Fakefs.MetaStash | fs/fake.c:1324-1340 | The rows move aside, or go when rows are aside already. |
| BindStash.Fakefs.MetaRestore | fs/fake.c:1342-1349 | The bind's rows go and the rows aside come back. |
| BindStash.BindUnbindIsAnUndo | fs/fake.c:1324-1385 | A bind over a mount point with a row, any number of rebinds with rows made and dropped below it in between, and an unbind leave every row, every inode's stat and the host tree as they were. |
| BindStash.UndoneExactly | fs/fake.c:1324-1385 | As long as the mount point's own row is not dropped meanwhile, rows and host tree come back if and only if the mount point had a row or the bind was never moved to another host path. |
| FdTables.Kernel.Create | fs/fd.c:11-27 | A new description has one reference, its maker's. |
| FdTables.Kernel.Retain | fs/fd.c:29-32 | One more reference, the caller's. |
| FdTables.Kernel.FdClose | fs/fd.c:34-55 | One reference fewer, and destroyed exactly when it was the last. |
| FdTables.Kernel.TableClose | fs/fd.c:277-287 | EBADF exactly for a slot not in use; otherwise the slot and its bit are clear and its reference gone, every other reference accounted for. |
| FdTables.Kernel.Expand | fs/fd.c:138-145 | EMFILE exactly beyond the limit; otherwise empty slots are added as needed. |
| FdTables.Kernel.InstallStart | fs/fd.c:238-262 | The lowest free slot at or above the start takes the caller's reference; EMFILE only when every slot below the limit is in use, and the reference is dropped then. |
| FdTables.Kernel.Install | fs/fd.c:264-275 | The same from slot 0, with the close-on-exec bit as asked. |
| FdTables.Kernel.Hold | fs/fd.c:160-181 | A description is listed once for a task, with one reference, however often it is looked up. |
| FdTables.Kernel.Get | fs/fd.c:224-236 | What is returned is the description in the slot, held by the calling thread's list. |
| FdTables.Kernel.Drain | fs/fd.c:183-198 | The list is empty and each reference in it is dropped once. |
| FdTables.Kernel.Dup | fs/fd.c:324-333 | The lowest free descriptor becomes another reference to the same description, and no reference is left in hand. |
| FdTables.Kernel.Dup3 | fs/fd.c:335-350 | With no other thread in between, the new descriptor refers to the same description, with what was there released; a refusal changes no table. |
| FdTables.Kernel.CopyTable | fs/fd.c:121-136 | The copy has the same slots and bits, and every description one more reference for each of its slots. |
| FdTables.Kernel.DoCloexec | fs/fd.c:301-307 | Exactly the marked slots are closed. |
| FdTables.OpenedThenExec | fs/fd.c:264-307 | A descriptor installed or duplicated and then an exec: it is gone if it was asked to close on exec and refers to the same description if not, every other goes by its own bit, and no bit is left. |
| FdTables.Kernel.ReleaseTable | fs/fd.c:79-91 | The last user's release closes every slot and no other release closes any. |
| DupRaces.ConservedExactlyAlone | fs/fd.c:335-350 | With any number of threads opening, closing, duplicating with dup3 and with F_DUPFD on one table, every reachable state accounts for every reference if and only if there is one thread. |
| DupRaces.BalanceExactly | fs/fd.c:335-350 | From a balanced state a step keeps the balance if and only if it is not a store into a slot that is filled, nor the exchange of a grown table for one that has come to hold other references. |
| DupRaces.OverwrittenLeaks | fs/fd.c:335-350 | A run of two threads after which nothing refers to a description and its count is one. |
| DupRaces.AloneStaysBalanced | fs/fd.c:335-350 | The only thread of a table loses no reference from any state it can be in. |
| DupRaces.UninterruptedDup3 | fs/fd.c:335-350 | The steps of one dup3 with none of another thread in between redirect the descriptor, release what was there and leave one reference more, however many threads share the table. |
| FdTables.EmptyAccounted | fs/fd.c:277-287 | Emptying a slot and dropping its reference keeps every description's count equal to its slots, list entries and references in hand. |
| FdTables.FillAccounted | fs/fd.c:238-262 | Moving a reference from a hand into an empty slot keeps the same balance. |
| FdTables.CopyAccounted | fs/fd.c:128-133 | One more reference for each slot pays for a copied table. |
| ScmQueue.KthReceivedIsKthSent | fs/sock.c:1282-1290 | Under any interleaving of senders, failed sends, peeks and faulting receives, the k-th placeholder received comes with the k-th set of descriptors sent, read one receiver at a time with a control buffer and into memory that can be written. |
| ScmQueue.StepKeepsInv | fs/sock.c:1444-1507 | Every step keeps the queue equal to what is between wire and pop, then the sets on the wire, then what the lock's holder has queued. |
| ScmQueue.CarefulIsExact | fs/sock.c:1639-1695 | From a state in order, a step reads messages with descriptors one receiver at a time, with a control buffer and into writable memory if and only if no continuation that does so hands a set to the wrong message. |
| ScmQueue.WithoutControlBufferOutOfStep | fs/sock.c:1667-1688 | A message received without a control buffer leaves its set queued, and the next message hands over the wrong one. |
| ScmQueue.TwoReceiversOutOfStep | fs/sock.c:1680-1688 | Two receivers at once can hand over each other's sets. |
| ScmQueue.UnwritableBufferOutOfStep | fs/sock.c:1645-1653 | A receive that faults on the guest's buffer leaves its set queued, and the next message hands over the wrong one. |
| TtyLines.BytesReadAreBytesCommitted | fs/tty.c:291-363 | Over any run of input and reads, the bytes read followed by the committed bytes still in the buffer are what a simple line editor would have committed from everything typed, in order and without marks. |
| TtyLines.InputKeepsCommitted | fs/tty.c:315-323 | Input never changes what lies before the last flag. |
| TtyLines.ReadConservesBytes | fs/tty.c:532-547 | A read hands out the front of the buffer in order and only end-of-file marks disappear. |
| TtyLines.ReadIsOneLine | fs/tty.c:532-547 | A read gets no more than it asked for and no end of line but at its last byte; if it gets less it stops at the end of a line or at a mark; a mark that answers a read alone is gone after it. |
| TtyLines.KeystrokeMeaning | fs/tty.c:291-351 | After the translation of newlines and carriage returns, VERASE removes exactly the last byte of the edited line if there is one, VKILL exactly all of it, VEOF commits it with a mark that is no byte, newline and VEOL commit it and themselves, an ignored carriage return does nothing, NUL is never special, anything else is added. |
| TtyLines.EraseUndoesTyping | fs/tty.c:307-330 | A byte typed and erased leaves committed lines and edited line as they were. |
| TtyLines.TakeLeavesLine | fs/tty.c:532-547 | A read leaves the line being edited alone. |
| TtyLines.EofAfterLineIsLost | fs/tty.c:542-547 | Section 11.1.9 of XBD in IEEE Std 1003.1-2017 holds of a read exactly unless the read ends a line and an end-of-file mark comes directly after it. |
| TtyLines.LostEof | fs/tty.c:542-547 | A line and an end of file typed before the line is read: the reader never sees the end of file. |
| Tty.Terminal.PushChar | fs/tty.c:236-246 | The byte and its flag at the end of the buffer, or nothing exactly when it is full. |
| Tty.Terminal.EraseBack | fs/tty.c:315-330 | At most that many bytes of the line being edited go, and nothing before it. |
| Tty.Terminal.Input | fs/tty.c:291-363 | The buffer is what the line editor holds after the bytes taken, and it stops exactly at a byte that needs room there is not. |
| Tty.Terminal.CanonSize | fs/tty.c:414-419 | The length of the first line with its flagged end, or none exactly when there is no flag. |
| Tty.Terminal.ReadIntoBuf | fs/tty.c:405-412 | The first bytes go out and the rest moves to the front. |
| Tty.Terminal.Read | fs/tty.c:493-552 | The specified take from the committed lines, leaving the edited line; nothing when no line is committed. |

## Left out

- Gadget assembly and code generation: inside translated code a thread moves along patched exits, its return cache or its block cache, in any order.
- Prebuilt and offloaded functions, single stepping, the diagnostic modes that turn caches or chaining off, watchpoints and profiling.
- The generation counter of the block cache is unbounded, and chained guest addresses are below 2^32, because the source compares the low 32 bits of a slot (asbestos/asbestos.c:863).
- Blocks, descriptions and registrations are identifiers into maps or list elements, not pointers, so reuse of an address by the allocator is not modelled; `BlockCacheSafety.NoUseAfterFree` is about identifiers.
- The retry of a faulting block in the dispatch loop, signal handling and interrupts.
- GuestMemory.TranslateMeaning: does not model growing stacks and reserved mappings in `mem_ptr`: a page that is not mapped faults. Guest addresses do not wrap, since no page near 2^64 can be mapped.
- CompileProtocol.MarkedPagesAreWalked: takes a mark and its bump of the generation as one step, and a TLB entry that takes stores as stamped only while its page is not marked (emu/tlb.c:85-103 and TlbCoherence say how a stamp is verified).
- How often `changes` moves in one translation: the model moves it once for clearing compiled code and once for a copy, the source possibly more.
- BlockIndex.Asbestos.InvalidatePage: is one step; that its look at the lists takes no lock, and what can happen around it, is in BlockFreshness.
- BlockFreshness.LiveBlocksAreFresh: is about blocks from the verified exit of the compile protocol, whose check it takes as CompileProtocol.VerifiedBlockIsFaithful gives it; the give-up and unmapped exits promise nothing.
- BlockIndex.Asbestos.Chain: does not model the attempt to take the lock that may fail; then nothing changes.
- Tlb.SoftTlb.HandleMiss: states the two attempts for a thread alone; other threads in the middle of it, and the give-up exit, are in TlbCoherence.
- Tlb.SoftTlb.Load64: the bytes are added rather than or-ed together; they do not overlap. The 8, 16 and 32 bit variants, pairs, atomics and vector forms are easier copies and are not modelled.
- Tlb.StoredIsLoaded: takes host memory to come in whole pages, each backing a guest page or none; the same holds of Tlb.WholeStoreIsByteStores.
- Tlb.SoftTlb.Refresh: does not model the block cache and return cache fields that `tlb_refresh` clears on a change of address space.
- FileLocks.RunMeaning: leaves out requests that lock from offset -2^63 on, as do FileLocks.RunKeepsSound and FileLocks.RunKeepsInv, because the pass goes wrong with them; InodeLocks.RequestKeepsInvExactly says exactly when.
- InodeLocks.InodeData.Setlk: is one attempt of a blocking request; the wait between attempts is the caller's.
- FileLocks.WeakeningSignals: covers requests only; removing an owner's locks on close signals nobody in the source.
- Allocation failures in poll sets, the freelist of registrations, deadlines, signals, and the readiness functions of descriptions, which may answer anything.
- Poll.PollSet.Wakeup: covers one set; the source visits every set the description is in, one after the other. The same holds of Poll.PollSet.Cleanup.
- Poll.EpollWaitPass: is one pass of the wait loop; the callbacks of select and poll are not modelled.
- The path cache, mounts other than through the link and probe answers, and the length of the buffers that hold an expanded link: they are taken as large enough.
- PathLinks.NormalizeFollowsLinks: takes the process's root and the base to be spelled without a trailing slash, as getpath spells them.
- Per-context path hooks, the symlink text of a bind, the check that the host path exists, error returns of host calls inside a bind, and a guest that renames or removes the stash itself.
- FakeDb.Database.Rename: needs the two names to be apart, as rename(2) and the bind code ensure.
- BindStash.BindUnbindIsAnUndo: lets rows be made and dropped below the mount point while the bind is in place; changes elsewhere in the tables are not part of the run.
- Descriptor locks released on close, O_NONBLOCK on install, close_range, fcntl decoding, and negative descriptors passed to dup3.
- FdTables.Kernel.Dup3: is the call with no other thread in between; DupRaces has the interleavings, with one step for each look at and store to the table, a resize being a copy and an exchange, without close-on-exec bits and without a store beyond a table another thread has made shorter.
- FdTables.Kernel.Get: failure to grow the list is a parameter.
- Byte streams and credentials on sockets, peers that go away, and the connect and accept handshake (fs/sock.c peer links): they hold no order to lose.
- Raw mode, echo, job control, packet mode, hangup, signals from input characters, and waiting for room or for a line. Input characters are compared without regard to the signedness of `char`.
- Constructors and helper lemmas that only serve a proof have no row above.
