# Verified models of the general-purpose library

This project models the algorithmic core of `phlib`, the general-purpose library of Process Hacker, and proves what
its code promises. It holds twelve components. The concurrent ones are transition systems whose steps are single
accesses to shared memory, over any number of threads; the sequential ones are classes whose methods write the same
fields in the same order as the code, each proved against a mathematical view of its state. Run
`dafny verify dfyconfig.toml` to check everything.

| component | files | what is proved |
|---|---|---|
| handle table, free lists | `HandleFreeList*.dfy` | no ABA, every handle in exactly one place, no deadlock, and an allocation fails only if growth does, over all interleavings of allocation, freeing, moving and growth |
| handle table, sequential | `HandleTable.dfy` | growth through three levels keeps every entry; which handle is returned, and freed handles in order |
| fast resource lock | `FastLock*.dfy` | mutual exclusion, no carry between the fields of the packed word, no lost wakeup; a lock that is to be had is got |
| callbacks | `Callback*.dfy` | each listed function is called once and in order; after unregistering nobody runs or refers to the function; no lost pulse; no deadlock of the protocol itself |
| AVL tree | `Avl*.dfy` | insertion and removal keep order, links, balances and count; searches, steps and enumeration are exact; 47 stack slots suffice |
| file pool, allocator | `FilePool.dfy`, `FilePoolBitmap.dfy`, `FilePoolList.dfy` | the bytes handed out never overlap, no block is lost, the file grows only when it must |
| file pool, view cache | `FilePoolView.dfy`, `FilePoolViewTree.dfy` | the two indices agree, views are evicted in order and only when unused; the index by address is the AVL tree |
| buffered file stream | `FileStream.dfy` | over every run it is a plain file with a position, but for a seek after a read of no bytes |
| hashtable | `Hashtable*.dfy` | it is a finite map through resizing and reuse of entries |
| Unicode | `Unicode*.dfy` | UTF-16 to UTF-8 and back; the incremental decoder |
| integer text | `IntegerText*.dfy` | reading undoes writing, and exactly when; what the characters denote |
| SHA-1 | `Sha1*.dfy` | hashing in pieces is hashing the whole as the standard defines it, and the standard's example comes out |

`Sequences.dfy` and `PowersOfTwo.dfy` hold what several of them use.

## Where the code does less than its documentation

The code is modelled as it is. Where a promise does not hold for all inputs, the model shows an input for which it
fails and the exact condition under which it holds.

- **Seeking after a read of no bytes** (`phlib/filestream.c:684-696`): such a read leaves a filled buffer with
  `ReadPosition` 0, which a seek does not discard. The stream then agrees with the plain file if and only if the seek is
  relative and the bytes in front of the new position look like the buffer (`FileStream.Stream.Seek`); if they do not, a
  read past the buffer returns other bytes than the file holds (`FileStream.Stream.Read`, `FileStream.StaleExample`).
- **`PhGetPositionFileStream`** (`phlib/filestream.c:604-613`) subtracts two `ULONG`s before widening: the position is
  right if and only if the buffer has been read to its end, and 2^32 too large otherwise (`FileStream.Stream.GetPosition`,
  `FileStream.PositionExample`).
- **`A_SHAUpdate`** (`phlib/sha.c:117`) adds `Length >> 29` to the upper counter although the counters count bytes. The
  length field of the padding is right if and only if the sum of `Length >> 29` over all updates vanishes modulo 2^29
  (`Sha1Stream.LengthField`); one update of 2^29 bytes is enough to get it wrong (`Sha1Stream.LengthFieldExample`). If the
  buffer's content and `Length` add up to 2^32 or more, the sum wraps and more is copied than the buffer holds
  (`Sha1Stream.Context.Update`).
- **`PhAllocateFilePool`** (`phlib/filepool.c:425`) rounds up in 32 bits: the blocks hold the request if and only if the
  sum does not wrap (`FilePool.BlocksCover`); a request for 0xFFFFFFF9 bytes gets a single block of 128
  (`FilePool.BlocksCoverExample`), and some sizes ask for no block at all (`FilePool.WrapsToNothing`).
- **`PhFppAllocateSegment`** (`phlib/filepool.c:846`) computes the new size of the file in 32 bits. It is right if and
  only if the pool stays below 4 GB; the last segment of the first 4 GB makes it 0 (`FilePool.NewSizeWraps`,
  `FilePool.NewSizeExample`: the sixteenth segment of 256 MB). If the system takes that for a success, the new segment
  cannot be mapped and the code goes on with a null address (`FilePool.FilePool.Allocate`).
- **Segment headers** (`phlib/filepool.c:189-190`) are given blocks for their own size but lie behind a block header:
  the part in use always fits, the whole header if and only if blocks have at least 128 bytes; the rest is the
  `Reserved` field (`FilePool.BlockSizes`).
- **Integer text** in radix 48 and above: a number that is not negative and begins with the digit 47, written `+`, or
  49, written `-`, is not read back; all others are (`IntegerText.RoundTrip`, `IntegerText.RoundTripExample`).
- **UTF-16** that ends in a high surrogate loses it on the way through UTF-8; everything else survives
  (`Unicode.RoundTrip`, `Unicode.RoundTripExample`).
- **`PhpUnreadUnicodeDecoder`** raises an exception if and only if more than five bytes are waiting when a malformed
  sequence is put back (`UnicodeDecoder.Decoder.Decode`, `UnicodeDecoder.RaisedExample`); a caller that decodes after each byte never gets there
  (`UnicodeDecoder.DecodeBytes`).
- **A hashtable** with all 2^31 entries in use cannot grow: the capacity asked for wraps to 0 (`Hashtable.Hashtable.Add`);
  and one created for more than 2^31 entries has no buckets (`Hashtable.Hashtable.constructor`).

## What is taken for granted

- Queued locks have one exclusive holder or any number of shared ones; conditions and semaphores follow their usual
  contract; compare-exchange and interlocked operations are atomic.
- Reading from a file succeeds with fewer bytes only at its end, with none beyond it; a negative position is refused.
- Mapped ranges do not overlap, and a range behind the end of the file cannot be mapped. `RtlFindClearBitsAndSet` finds some clear run if there is one.
- A comparison function is a total preorder, given on the finitely many elements of a tree by a rank. The equality of
  a hashtable is an equivalence and its hash respects it.
- Memory allocation succeeds.

## Model

| member | source | states |
|---|---|---|
| `HandleFreeListSafety.AbaFreedom` | phlib/handle.c:532-573 | while FreeValue is still the handle a popping thread re-checked under its striped lock, the link it read is that handle's current link |
| `HandleFreeListSafety.PopIsExclusive` | phlib/handle.c:486-583 | a successful pop takes exactly the first handle of a well-formed list; it was owned by nobody and not being freed |
| `HandleFreeListSafety.Conservation` | phlib/handle.c:474-627 | in every reachable state each created handle is in exactly one place: one of the lists, in the hands of the thread under the table lock, owned, or being freed by one thread |
| `HandleFreeListSafety.NothingLostAtRest` | phlib/handle.c:474-627 | with no call in progress every handle is owned or on one of the two lists |
| `HandleFreeListProof.StepKeeps` | phlib/handle.c:474-990 | every step of allocation, freeing, moving and growth, by any thread, keeps the list invariant |
| `HandleFreeListProof.PopHead` | phlib/handle.c:566-576 | the compare-exchange of a pop hands out the head and leaves the rest of the list |
| `HandleFreeListProof.ReverseKeeps` | phlib/handle.c:938-960 | one round of the reversal moves one private entry and keeps all other lists |
| `HandleFreeListProgress.AllocateAlone` | phlib/handle.c:486-583 | undisturbed, six steps take the first handle of a free list that is not empty |
| `HandleFreeListProgress.FreeAlone` | phlib/handle.c:585-627 | undisturbed, four steps make the handle the first of one of the lists |
| `HandleFreeListProgress.AllocateReturns` | phlib/handle.c:486-583 | over every interleaving an allocation that returns has taken a handle, or growing the table has failed in the same call and FreeValue was invalid at the end |
| `HandleFreeListProgress.GrowsIfTooFew` | phlib/handle.c:509-516 | the table is grown only if the call found the alternate list empty, or moved fewer than 64 handles with strict FIFO |
| `HandleFreeListProgress.NotBlockedCanAct` | phlib/handle.c:474-990 | every call can go on unless it waits for the table lock or a stripe |
| `HandleFreeListProgress.SomebodyCanAct` | phlib/handle.c:474-990 | while a call is under way some call can go on: no deadlock |
| `HandleTable.LookupFinds` | phlib/handle.c:842-893 | on each level a value below NextValue resolves to its own level 0 table and index, any other to none |
| `HandleTable.LookupDistinct` | phlib/handle.c:842-893 | different values resolve to different entries |
| `HandleTable.EntryKept` | phlib/handle.c:629-840 | an entry keeps its identity through any growth, also to another level |
| `HandleTable.GrowthFrom1` | phlib/handle.c:703-746 | a full level 1 table is hung under a new level 2 table |
| `HandleTable.GrowthInPart` | phlib/handle.c:762-782 | a level 0 table is put in the level 1 table that is not full |
| `HandleTable.GrowthByPart` | phlib/handle.c:783-806 | a new level 1 table is put in the level 2 table |
| `HandleTable.HandleTable.Expand` | phlib/handle.c:629-840 | 256 fresh handles are put in front of the free list in order; it fails only with 256^3 handles |
| `HandleTable.HandleTable.CreateLevel0` | phlib/handle.c:992-1032 | the entries of a new table lead to each other in order |
| `HandleTable.HandleTable.ReverseChain` | phlib/handle.c:942-963 | the chain is reversed in place, its length counted, nothing else written |
| `HandleTable.HandleTable.MoveFree` | phlib/handle.c:895-990 | the alternate list goes reversed in front of the free list, or as it is into an empty one; with strict FIFO and fewer than 64 handles an expansion is asked for |
| `HandleTable.HandleTable.Free` | phlib/handle.c:585-627 | the handle goes to the front of the free list, or with strict FIFO of the alternate one, where it is last in the queue of freed handles |
| `HandleTable.HandleTable.Allocate` | phlib/handle.c:474-583 | exactly which handle is returned, what the lists hold afterwards, and when the table grows: only for an empty free list, and only with nothing to move or, with strict FIFO, fewer than 64 handles; with strict FIFO it is fresh or the one freed first; failure only with all 256^3 handles in use |
| `HandleTable.HandleTable.Refill` | phlib/handle.c:492-528 | the alternate list is moved first, and the table grows only if that is not enough |
| `HandleTable.HandleTable.constructor` | phlib/handle.c:31-93 | a new table has 256 free handles |
| `FastLockProof.MutualExclusion` | phlib/fastlock.c:112-384 | one exclusive holder and no shared one, or only shared ones, whose number is the owner count; OWNED and EXCLUSIVE_WAKING are never both set |
| `FastLockProof.NoLostWakeup` | phlib/fastlock.c:112-332 | while a thread waits, some holder, signaller, woken thread or waiter with a token can take a step |
| `FastLockProof.WaitersBalance` | phlib/fastlock.c:135-162 | waiting threads equal the waiter counts plus tokens plus releases to be made; semaphores exist before they are used |
| `FastLockProof.StepKeeps` | phlib/fastlock.c:112-384 | every step of every thread keeps the balance of word, tokens and threads |
| `FastLockProof.UnpackPack` | phlib/fastlock.c:34-51 | the packed word holds a record of counters in range without carry |
| `FastLockProof.PackUnpack` | phlib/fastlock.c:34-51 | every 32-bit word is the packing of its fields |
| `FastLockProof.WordKeeps` | phlib/fastlock.c:112-332 | with at most 1023 threads no field of the word outgrows its ten bits |
| `FastLockProgress.TryExclusive` | phlib/fastlock.c:334-350 | a try returns FALSE if and only if the lock is held or a wakeup is under way when it is read, or the word has changed before the compare-exchange; otherwise the thread owns the lock |
| `FastLockProgress.TryShared` | phlib/fastlock.c:353-384 | the same for a shared try, which also gives way to exclusive waiters |
| `FastLockProgress.AcquireExclusive` | phlib/fastlock.c:112-168 | undisturbed, two steps get a lock that is to be had; otherwise the thread becomes a waiter |
| `FastLockProgress.AcquireShared` | phlib/fastlock.c:172-236 | the same for a shared owner |
| `FastLockProgress.TakeToken` | phlib/fastlock.c:145-160 | an exclusive waiter with a token gets the lock, a shared one starts again |
| `FastLockProgress.ReleaseExclusive` | phlib/fastlock.c:239-283 | nobody holds the lock afterwards; one exclusive waiter gets a token, or else every shared one |
| `FastLockProgress.ReleaseShared` | phlib/fastlock.c:286-331 | one owner less; after the last one an exclusive waiter gets a token if there is any |
| `FastLockProgress.NobodyIsStuck` | phlib/fastlock.c:112-384 | every thread can take a step that is not spinning, unless it waits for a token that is not there |
| `FastLockProgress.WordMeans` | phlib/fastlock.c:34-51 | what the fields of the word say about owners, wakeups and waiters |
| `CallbackProof.UnregisteredIsQuiet` | phlib/basesup.c:5635-5701 | once PhUnregisterCallback has taken a registration off the list, and until it is registered again, its function is not in execution and no walk refers to it |
| `CallbackProof.UnregisterWaitsForFunction` | phlib/basesup.c:5635-5651 | while the function is in execution its unregistration has not returned and a test of Busy goes on waiting |
| `CallbackProof.NoLostPulse` | phlib/basesup.c:5644-5697 | a blocked unregistration that has not been woken has an invocation that still has to pulse |
| `CallbackProof.SomebodyCanMove` | phlib/basesup.c:5606-5701 | if a call is under way some call can take a step, provided functions return |
| `CallbackProof.StepKeeps` | phlib/basesup.c:5606-5701 | every step of every activation keeps lock, list, cursors, Busy counts and waiters consistent |
| `CallbackProof.CursorsKept` | phlib/basesup.c:5668-5698 | a walk always stands on a listed registration |
| `CallbackProof.CountsKept` | phlib/basesup.c:5679-5690 | Busy is the number of invocations between increment and decrement |
| `CallbackOrder.CalledOnceInOrder` | phlib/basesup.c:5659-5701 | over every interleaving an invocation calls each registration that stays on the list and is not being unregistered exactly once, in the order of the list |
| `CallbackOrder.CalledAreCleared` | phlib/basesup.c:5674-5686 | exactly those are called whose flag is not set when it is tested |
| `CallbackOrder.ListInOrder` | phlib/basesup.c:5620-5622 | the list is in the order of registration |
| `CallbackOrder.RegisterAlone` | phlib/basesup.c:5606-5623 | undisturbed, the registration becomes the last of the list |
| `CallbackOrder.UnregisterAlone` | phlib/basesup.c:5635-5651 | undisturbed, exactly the registration is taken off the list |
| `AvlTree.AvlTree.Add` | phlib/avltree.c:487-564 | either an equal element is returned and nothing changes, or the element is inserted at its place in the order; order, links, balances and count are kept |
| `AvlTree.AvlTree.Remove` | phlib/avltree.c:572-691 | exactly the element is taken out of the order; order, links, balances and count are kept |
| `AvlTree.AvlTree.Locate` | phlib/avltree.c:52-103 | the equal element, or the one empty place where the element belongs |
| `AvlTree.AvlTree.RotateRight` | phlib/avltree.c:220-264 | the links after the writes are those of the rotated tree, elsewhere nothing changes |
| `AvlTree.AvlTree.RotateLeft` | phlib/avltree.c:105-149 | the same to the left |
| `AvlTree.AvlTree.RotateRightTwice` | phlib/avltree.c:266-333 | the same for the double rotation |
| `AvlTree.AvlTree.RotateLeftTwice` | phlib/avltree.c:151-218 | the same to the left |
| `AvlTree.AvlTree.Rebalance` | phlib/avltree.c:335-477 | the subtree is balanced, holds the same elements in the same order, and is as high as before if and only if 3 is returned |
| `AvlTree.AvlTree.RetraceAdded` | phlib/avltree.c:511-559 | the walk up after an insertion ends with a tree in order |
| `AvlTree.AvlTree.RetraceRemoved` | phlib/avltree.c:626-671 | the walk up after a removal ends with a tree in order |
| `AvlTree.AvlTree.ChooseReplacement` | phlib/avltree.c:587-600 | the replacement is the neighbour in the order on the higher side and has at most one child |
| `AvlTree.AvlTree.TakeOver` | phlib/avltree.c:673-688 | the replacement has the links of the element it replaces, and its neighbours refer to it |
| `AvlRotation.RotatedRightInOrder` | phlib/avltree.c:220-264 | a rotation keeps the elements and their order |
| `AvlRotation.WrittenRightTwiceLinked` | phlib/avltree.c:266-333 | the memory after a double rotation holds the rotated tree |
| `AvlRotation.RightTwiceRestored` | phlib/avltree.c:361-389 | the balances chosen by what the inner child leant to are right |
| `AvlRotation.RightRestored` | phlib/avltree.c:346-419 | the balances after a single rotation are right, in the special case too |
| `AvlFocus.Climb` | phlib/avltree.c:525-542 | a parent whose balance is adjusted is in order one level up |
| `AvlFocus.GrowsTurned` | phlib/avltree.c:543-558 | after the rotation of an insertion the height is as before, so the walk may stop |
| `AvlFocus.ShrinksTurned` | phlib/avltree.c:646-663 | after the rotation of a removal the walk may stop if and only if 3 was returned |
| `AvlFocus.Renamed` | phlib/avltree.c:673-688 | replacing a node in place keeps the tree in order |
| `AvlShape.FibonacciBound` | phlib/avltree.c:1017-1021 | an AVL tree of height h has at least Fib(h + 2) - 1 elements |
| `AvlShape.HeightBound` | phlib/avltree.c:1017-1021 | with fewer than 2^32 elements the height is at most 45 |
| `AvlWalk.LowerBound` | phlib/avltree.c:725-753 | the first element that is not less |
| `AvlWalk.UpperBound` | phlib/avltree.c:763-791 | the first element that is greater |
| `AvlWalk.LowerDualBound` | phlib/avltree.c:801-829 | the last element that is less |
| `AvlWalk.UpperDualBound` | phlib/avltree.c:839-867 | the last element that is not greater |
| `AvlWalk.Successor` | phlib/avltree.c:924-956 | the next element in the order, or none |
| `AvlWalk.Predecessor` | phlib/avltree.c:965-1000 | the previous element in the order, or none |
| `AvlEnumeration.Enumerate` | phlib/avltree.c:1010-1081 | the callback sees the elements in the order asked for, once each, up to the end or its first refusal; the stack never overflows |
| `AvlEnumeration.StackBound` | phlib/avltree.c:1022-1024 | the stack is never deeper than the tree is high |
| `AvlEnumeration.OrderOfTree` | phlib/avltree.c:1028-1079 | the two orders are the order of the tree and its reverse |
| `FilePool.FilePool.Allocate` | phlib/filepool.c:408-496 | the bytes asked for lie in the new span, behind its header and apart from all live ones, and their address is where in the file they are; a segment is added only if no segment has a run of free blocks that is long enough, and categories with more free blocks are tried first; exactly when a request fails, asks for no block, or finds the file size wrapped |
| `FilePool.FilePool.Free` | phlib/filepool.c:506-528 | exactly the span is given back |
| `FilePool.FilePool.AllocateFromList` | phlib/filepool.c:439-458 | a list is searched to its end unless a segment has room |
| `FilePool.FilePool.AllSearched` | phlib/filepool.c:433-461 | a segment on a list that is not searched has too few free blocks |
| `FilePool.FilePool.AllocateSegment` | phlib/filepool.c:836-861 | while the file stays below 4 GB, a segment with a fresh header is put on the first list |
| `FilePool.NewSizeWraps` | phlib/filepool.c:846 | the 32-bit size of the grown file is right but for the last segment of the first 4 GB, where it is 0 |
| `FilePool.NewSizeExample` | phlib/filepool.c:846 | the sixteenth segment of 256 MB makes it 0 |
| `FilePool.FilePool.AllocateFromExisting` | phlib/filepool.c:429-461 | blocks are found if and only if some segment has a run that is long enough |
| `FilePool.FilePool.AllocateBlocks` | phlib/filepool.c:1222-1257 | a clear run is marked and counted, or there is none |
| `FilePool.FilePool.FreeBlocks` | phlib/filepool.c:1267-1285 | the run is cleared and counted |
| `FilePool.FilePool.Recategorize` | phlib/filepool.c:480-488 | a segment moves to the list of its category |
| `FilePool.FilePool.InsertFreeList` | phlib/filepool.c:1344-1381 | the segment is put at the head of the doubly linked list |
| `FilePool.FilePool.RemoveFreeList` | phlib/filepool.c:1391-1453 | the segment is taken off its list, wherever it is |
| `FilePool.FilePool.constructor` | phlib/filepool.c:165-223 | a new pool is consistent, its first segment on list 1 |
| `FilePool.CategoryAntitone` | phlib/filepool.c:1293-1334 | more free blocks never mean a later list |
| `FilePool.CategoryMeans` | phlib/filepool.c:1293-1334 | the bounds of the eight categories |
| `FilePool.SpanAdded` | phlib/filepool.c:1241-1254 | a clear run becomes a live span apart from all others |
| `FilePool.SpanRemoved` | phlib/filepool.c:1276-1284 | a live span becomes a clear run and no other is touched |
| `FilePool.Conservation` | phlib/filepool.c:1222-1285 | free blocks, live spans and headers make up each segment |
| `FilePool.FreeUndoesAllocate` | phlib/filepool.c:1222-1285 | freeing restores the bitmap from before the allocation |
| `FilePool.BlocksCover` | phlib/filepool.c:424-425 | the blocks hold the request if and only if the 32-bit sum does not wrap, and are as few as possible |
| `FilePool.BlocksCoverExample` | phlib/filepool.c:424-425 | a request of nearly 4 GB that gets one block |
| `FilePool.WrapsToNothing` | phlib/filepool.c:424-425 | the sizes that ask for no block |
| `FilePool.BlockSizes` | phlib/filepool.c:190-191 | what fits into the blocks set aside for the headers |
| `FilePool.RvaRoundTrip` | phlib/filepool.c:1477-1512 | an address decodes to its segment and offset if and only if the segment lies in the first 4 GB |
| `FilePool.FilePool.LiveRva` | phlib/filepool.c:490-493 | the address of every live block leads back to its segment and block |
| `FilePool.FilePool.RvaIsPlace` | phlib/filepool.c:490-493 | the address of a live block is where in the file its body begins, 8 bytes into the block |
| `FilePool.FilePool.SpanInSegment` | phlib/filepool.c:1241-1254 | a live block lies in its segment, behind the headers |
| `FilePool.FilePool.SpansApart` | phlib/filepool.c:1241-1254 | no byte of the file belongs to two live blocks |
| `FilePool.FilePool.FreeByRva` | phlib/filepool.c:561-583 | exactly the block whose address is given is freed; an address beyond the last segment is refused |
| `FilePoolBitmap.FindClearBitsAndSet` | phlib/filepool.c:1241-1248 | some clear run is marked, or there is none |
| `FilePoolBitmap.CountAllocated` | phlib/filepool.c:1242-1250 | marking a clear run takes its length from the clear bits |
| `FilePoolBitmap.CountFreed` | phlib/filepool.c:1283-1284 | clearing a run gives its length back |
| `FilePoolList.Removed` | phlib/filepool.c:1431-1450 | joining the neighbours leaves a well-linked list without the segment |
| `FilePoolList.Inserted` | phlib/filepool.c:1367-1378 | a new head leaves a well-linked list |
| `FilePoolView.ViewCache.FindByIndex` | phlib/filepool.c:944-973 | the view of the segment, or there is none |
| `FilePoolView.ViewCache.FindByBase` | phlib/filepool.c:1010-1033 | the view in whose range the address lies, or there is none |
| `FilePoolView.IndicesAgree` | phlib/filepool.c:944-1033 | what is found by a segment is found by each address in its range, and the other way round |
| `FilePoolView.ViewCache.Create` | phlib/filepool.c:1035-1060 | the view is in both indices and shows the part of the file at the 32-bit offset asked for |
| `FilePoolView.FileOffsetRight` | phlib/filepool.c:1044 | the 32-bit offset is that of the segment if and only if it lies in the first 4 GB |
| `FilePoolView.FileRangesApart` | phlib/filepool.c:1044 | views of different segments never show the same byte of the file |
| `FilePoolView.ViewCache.Destroy` | phlib/filepool.c:1062-1072 | the view is in neither index |
| `FilePoolView.ViewCache.Reference` | phlib/filepool.c:1106-1118 | one reference more; the view is active |
| `FilePoolView.ViewCache.Dereference` | phlib/filepool.c:1120-1132 | one reference less; an unused view becomes the most recent inactive one, and only the least recent is evicted |
| `FilePoolView.ViewCache.Deactivate` | phlib/filepool.c:1083-1104 | the number of inactive views never exceeds the maximum after the call |
| `FilePoolView.UpperDualBoundIs` | phlib/filepool.c:1023-1030 | the last view that does not begin behind an address is the only one that can hold it |
| `FilePoolViewTree.SearchAgrees` | phlib/filepool.c:1010-1026 | what the search of the AVL tree finds is the last view that does not begin behind the address |
| `FilePoolViewTree.AddViewByBase` | phlib/filepool.c:986-992 | the AVL tree goes on holding the views in the order of their addresses |
| `FilePoolViewTree.RemoveViewByBase` | phlib/filepool.c:994-1000 | the same after a removal |
| `FilePoolViewTree.FindViewByBase` | phlib/filepool.c:1010-1026 | the search finds what the ordered sequence of views gives |
| `FileStream.Stream.Read` | phlib/filestream.c:253-374 | the bytes and the new position are those of the plain file; over a buffer that a seek should have discarded, a read past it tells |
| `FileStream.Stream.Write` | phlib/filestream.c:422-516 | contents and position are those of the plain file, also with buffered data left to read |
| `FileStream.Stream.Flush` | phlib/filestream.c:571-602 | the stream stands for the same file and position; pending bytes are in the file |
| `FileStream.Stream.Seek` | phlib/filestream.c:668-706 | agrees with the plain file if and only if the target is not negative and a buffer left untouched by a read of no bytes still fits the new position |
| `FileStream.Stream.GetPosition` | phlib/filestream.c:604-613 | the position is right if and only if the buffer has been read to its end |
| `FileStream.Stream.FlushRead` | phlib/filestream.c:518-544 | the buffer is discarded and the file rewound over the unread bytes, so the stream stands for the same file and position |
| `FileStream.Stream.FlushWrite` | phlib/filestream.c:546-562 | pending bytes are written and the view is unchanged |
| `FileStream.Stream.Append` | phlib/filestream.c:452-485 | bytes are appended to the pending ones, which are written when the buffer is full |
| `FileStream.Perform` | phlib/filestream.c:253-706 | over every run of reads, writes, seeks and flushes the stream is the plain file, except where a seek that moves follows a read of no bytes at once |
| `FileStream.StaleExample` | phlib/filestream.c:684-696 | a read of no bytes, a seek and a read that returns a stale byte |
| `FileStream.PositionExample` | phlib/filestream.c:604-613 | a position reported 2^32 too large |
| `PlainFile.OverwriteTwice` | phlib/filestream.c:546-562 | writing in two parts is writing once |
| `PlainFile.OverwriteIs` | phlib/filestream.c:384-398 | the bytes of a file after a write |
| `PlainFile.ReadWritten` | phlib/filestream.c:253-374 | a read returns what has been written, and elsewhere what was there |
| `PlainFile.SeekMeans` | phlib/filestream.c:615-666 | a seek to the end and a write append; seeks add up |
| `PlainFile.ServedIsRead` | phlib/filestream.c:333-365 | what is served from the buffer and then from the file is one read of the file |
| `PlainFile.ServedTells` | phlib/filestream.c:333-365 | a read past a buffer agrees with the file only if the buffer does |
| `Hashtable.Hashtable.Add` | phlib/basesup.c:4959-5027 | an equal entry is returned and nothing changes, or the entry is added; an unused entry is used again, and a full table doubles, unless all 2^31 entries are in use |
| `Hashtable.Hashtable.Find` | phlib/basesup.c:5146-5170 | the entry equal to the one sought, or there is none |
| `Hashtable.Hashtable.Remove` | phlib/basesup.c:5183-5227 | exactly the entry equal to the one given is removed, or there is none |
| `Hashtable.Hashtable.Clear` | phlib/basesup.c:5084-5095 | nothing is left |
| `Hashtable.Hashtable.Resize` | phlib/basesup.c:4918-4957 | the same entries in more buckets |
| `Hashtable.Hashtable.constructor` | phlib/basesup.c:4871-4905 | a new table is empty, and usable if and only if the capacity is at most 2^31 |
| `Hashtable.Hashtable.Search` | phlib/basesup.c:5159-5169 | walking one chain decides for the whole table |
| `Hashtable.EntryAdded` | phlib/basesup.c:5014-5019 | each index in use is on exactly the chain of its bucket after an insertion |
| `Hashtable.EntryRemoved` | phlib/basesup.c:5204-5216 | and after a removal |
| `Hashtable.FreeTaken` | phlib/basesup.c:4992-4998 | an entry taken from the free chain leaves a well-formed chain of exactly the free entries |
| `Hashtable.CountIsSize` | phlib/basesup.c:5021 | Count is the number of entries held |
| `HashtableChains.ChainCut` | phlib/basesup.c:5204-5212 | unlinking an entry leaves the chain of the others |
| `HashtableChains.ValidateHash` | phlib/basesup.c:4824-4837 | a validated hash never equals the mark of an unused entry |
| `HashtableChains.LowBits` | phlib/basesup.c:4824-4837 | the low 31 bits are kept |
| `Unicode.RoundTrip` | phlib/basesup.c:2633-3044 | UTF-16 decoded, encoded to UTF-8, decoded and encoded again is unchanged if and only if it does not end in a high surrogate |
| `Unicode.RoundTripExample` | phlib/basesup.c:2902-2938 | a high surrogate at the end is lost |
| `Unicode.DecodeEncoded8` | phlib/basesup.c:2950-3008 | decoding undoes UTF-8 encoding for every code point, surrogates included |
| `Unicode.EncodeDecoded16` | phlib/basesup.c:2902-2938 | encoding undoes UTF-16 decoding, lone surrogates included |
| `Unicode.ParseEncoded8` | phlib/basesup.c:2958-3006 | the bytes of a code point lead back to it, whatever follows |
| `Unicode.DecodePrefix8` | phlib/basesup.c:2752-2901 | what follows does not change how the beginning is decoded |
| `Unicode.Form8` | phlib/basesup.c:2958-3006 | the class of the first byte, the bytes that follow and the bits in them |
| `Unicode.ParsedMeans` | phlib/basesup.c:2752-2901 | what is decoded is a byte below 0x80, the shortest form of a code point, or a byte that becomes a lone low surrogate |
| `Unicode.Form16` | phlib/basesup.c:3007-3035 | a unit, or a high and a low surrogate with ten bits each |
| `UnicodeDecoder.Decoder.Decode` | phlib/basesup.c:2752-2901 | the decoder splits the next code point off what has been written, or needs more; it raises an exception if and only if a malformed sequence is put back while more than five bytes wait |
| `UnicodeDecoder.Decoder.DecodeError` | phlib/basesup.c:2732-2750 | all bytes but the first go back into the buffer, which fails if and only if they do not fit |
| `UnicodeDecoder.Decoder.Write` | phlib/basesup.c:2633-2661 | a byte is taken unless four are waiting |
| `UnicodeDecoder.Decoder.Read` | phlib/basesup.c:2664-2696 | the first byte waiting |
| `UnicodeDecoder.Decoder.Unread` | phlib/basesup.c:2698-2730 | a byte is put back unless four are waiting |
| `UnicodeDecoder.DecodeBytes` | phlib/basesup.c:3302-3315 | decoding after every byte never raises an exception and gives the code points of the whole |
| `UnicodeDecoder.RaisedExample` | phlib/basesup.c:2698-2750 | six bytes waiting, of which the third is malformed |
| `IntegerText.RoundTrip` | phlib/basesup.c:5973-6054 | in every radix from 2 to 69, for signed and unsigned integers, reading undoes writing if and only if the number is negative or its leading digit is neither 47 nor 49 |
| `IntegerText.RoundTripExample` | phlib/basesup.c:5996-6002 | 47 in radix 48 and 49 in radix 50 are read as 0 |
| `IntegerText.FormatDigits` | phlib/format_i.h:127-222 | the digits of the number, the most significant first; the buffer suffices |
| `IntegerText.IntegerToString` | phlib/basesup.c:6159-6182 | sign and digits, radix 10 for 0, none for 1 or above 69 |
| `IntegerText.ReadDigits` | phlib/basesup.c:5921-5950 | the value modulo 2^64, and whether all characters were digits |
| `IntegerText.StringToInteger` | phlib/basesup.c:5973-6054 | sign, prefix and digits |
| `IntegerText.DigitOfChar` | phlib/data.c:82-121 | the two character tables are inverse |
| `IntegerText.ReadText` | phlib/basesup.c:5935-5945 | the digits written are read back |
| `IntegerText.TextLength` | phlib/format_i.h:151-160 | a number below 2^k has at most k digits |
| `IntegerText.NoCoincidence` | phlib/basesup.c:5996-6002 | no number that begins with the digit - happens to be read back |
| `IntegerTextMeaning.Tables` | phlib/data.c:82-114 | the digits of both tables, character by character |
| `IntegerTextMeaning.WrittenIntegerMeans` | phlib/basesup.c:6159-6182 | from the codes alone: the characters written up to radix 36 denote the number, in lower case, after a minus sign for a negative one |
| `IntegerTextMeaning.WrittenMeans` | phlib/format_i.h:127-222 | the digits written denote the number, without leading zeros |
| `IntegerTextMeaning.ReadIntegerMeans` | phlib/basesup.c:5973-6054 | from the codes alone: what is read up to radix 36 is what the digits denote modulo 2^64, negated after a minus sign, and accepted if and only if all are digits |
| `IntegerTextMeaning.ReadMeans` | phlib/basesup.c:5921-5950 | the same for the digits |
| `IntegerTextMeaning.PrefixMeans` | phlib/basesup.c:5994-6034 | the bases that prefixes name |
| `IntegerTextMeaning.WrittenExamples` | phlib/basesup.c:6159-6182 | -12 in radix 10 and 255 in radix 16 |
| `IntegerTextMeaning.ReadExamples` | phlib/basesup.c:5973-6054 | the same read back, in either case |
| `Sha1.Transform` | phlib/sha.c:44-89 | the transformation of a block is that of section 6.1.2 of FIPS 180-4 |
| `Sha1.Schedule` | phlib/sha.c:30-31 | the circular schedule of 16 words holds the words of the schedule of 80 |
| `Sha1.FiveRounds` | phlib/sha.c:58-78 | five macros with renamed registers are five rounds with moved ones |
| `Sha1.MixIsRound` | phlib/sha.c:36-41 | each macro computes a round of the standard |
| `Sha1.FunctionsAgree` | phlib/sha.c:32-35 | the choice and majority functions are those of the standard |
| `Sha1.SwapIsBigEndian` | phlib/sha.c:30 | swapped little-endian words are big-endian ones |
| `Sha1Stream.Context.Update` | phlib/sha.c:105-137 | state, buffer and counters after more bytes are those of the longer message, if and only if the sum with the content of the buffer does not wrap |
| `Sha1Stream.Context.Final` | phlib/sha.c:139-172 | the hash of the padded message, with the length field of the counters |
| `Sha1Stream.HashPieces` | phlib/sha.c:91-172 | any split into updates shorter than 2^29 bytes gives the SHA-1 of the whole |
| `Sha1Stream.LengthField` | phlib/sha.c:113-117 | the length field is that of the standard if and only if the sum of Length >> 29 vanishes modulo 2^29 |
| `Sha1Stream.LengthFieldExample` | phlib/sha.c:113-117 | an update of 2^29 bytes gives a wrong length field |
| `Sha1Stream.Extended` | phlib/sha.c:119-136 | the blocks that buffer and input fill are hashed and the rest is kept |
| `Sha1Example.HashOfAbc` | phlib/sha.c:44-172 | the hash of "abc" is the one that FIPS 180-4 gives as its example |
| `Sha1Example.AbcExample` | phlib/sha.c:91-172 | the code computes it from two pieces |
| `Sha1Example.Constants` | phlib/sha.c:36-41 | the round constants are square roots of 2, 3, 5 and 10; the form of the initial value |

## Left out

- Sha1.Transform: copies the buffer into the schedule, where the code overwrites the buffer in place; its contents are
  not read again before they are replaced. The eighty macros are written as sixteen groups of five.
- FilePool.FilePool.Allocate: for the sizes that ask for no block, `RtlFindClearBitsAndSet` is called for zero bits, and what it
  answers is not modelled. Whether the system extends the file is an input.
- FilePool.FilePool.Free: takes a live block; what freeing anything else does is not stated.
- FilePool.FilePool.FreeByRva: takes the address of a live block, or one that leads to no segment.
- FilePoolView.ViewCache.Create: the new range comes from the environment, apart from all mapped ones. The tree by address is
  an ordered sequence; `FilePoolViewTree` shows that the AVL tree holds it and searches it.
- HandleTable.HandleTable.Allocate: is the table as one thread sees it; what other threads may do in between is in
  `HandleFreeList`.
- AvlTree.AvlTree.Add: `Count` is unbounded, and the links of all elements are one map from addresses to records.
- AvlEnumeration.Enumerate: a callback answers by the element alone, and does not change the tree.
- Hashtable.Hashtable.Add: what a full table of 2^31 entries does after its capacity has wrapped is not modelled. For a power
  of two the mask of `PhpIndexFromHash` is a remainder, and is written as one.
- UnicodeDecoder.Decoder.Decode: is the UTF-8 decoder. The incremental decoders for UTF-16 and UTF-32 are not modelled: the
  former keeps at most one unit between calls and has room to put back the one it has just read, the latter keeps none.
  `Unicode` has the code points that a sequence of UTF-16 units stands for.
- IntegerText.FormatDigits: no grouping, padding or upper case.
- FileStream.Stream.Read: synchronous files that report the end of the file by a short count; locks and the operating
  system's own flush are left out.
- Entry locks of the handle table, `PhEnumHandleTable` and `PhSweepHandleTable`: a two-bit state per entry.
- The queued lock, wake events and conditions themselves: their contracts are assumed.
- `PhFormat`, which joins formatted parts in a buffer that grows: its result is the concatenation of the parts, and the
  digits are in `IntegerText`.
- Floating-point text: it is what `std::to_chars` and the C library make of a double.
- Strings, lists, arrays, string builders and circular buffers: sequences, appended to and cut.
- JSON, HTTP, processes and user interface: calls into the system.
- Failure of memory allocation and of mapping, exceptions while reading memory, and reference counts of objects.
