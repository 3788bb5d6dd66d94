# Verified models of the memory systems in this repository

Dafny models of five parts of the repository, with proofs about every input, every reachable state or every run.

**The memcached 1.2.7 cache engine.** `CacheSpec` gives each operation of `items.c` and the storage half of
`memcached.c` as a function on one abstract state. `CacheInvariant` states what holds between operations,
`CacheRuns` and `CacheCommands` prove it over every run of commands, with the consequences for cas, references and
flush_all. `Cache` is the engine as the C code has it: a chained hash table that grows bucket by bucket (`Assoc`),
doubly linked LRU lists (`LruQueues`), and the slab allocator (`Slabs`), each with its own invariant; its methods
are proved to compute exactly the functions of `CacheSpec`, and `CacheServer` carries out the commands on it, with
the arithmetic of incr and decr in `Counters`; `CacheRequests` and `CacheLines` go from the bytes of a request to
what a lookup then finds. `Hash` is the key hash in 32-bit arithmetic.

**memcached's byte streams.** `Response` builds replies from iovecs and messages and sends them through partial
writes. `Request` cuts the input into command lines and data blocks under partial reads, against a reference that
reads the whole stream at once. `ProcessCommand` cuts a line into tokens and says what the server makes of it.

**The TrackFM far-memory runtime.** `FarWorld` has the cached metadata words, the slow path and the evacuator;
`FarRuns` proves that any interleaving looks like flat memory. `FarMem` and `FarLibc` do the same for the libc
routines that walk memory object by object, and `FarAlloc` for the allocator that counts freed bytes and recycles
objects; `FarProgram` puts all of it together against a flat memory. AIFM itself enters as a contract: a dereference
makes an object present and hot, a mutable one also dirty; an evacuated object is written back if and only if it is
dirty; nothing is evacuated between a guard and its access or inside one libc call.

**Fastswap's CFM.** `CfmModel` and `CfmServer` are the server's machine: CPU ownership, memory shares, the
reclaimer's CPU. `CfmCluster` is the scheduler and every run of the cluster. The admission tests in one process
imply that the pops and asserts in the other never fail, even on reports that workloads finishing since have
outdated.

**Two numeric kernels.** `KMeans` has the Hartigan-Wong transfers (Algorithm AS 136, Applied Statistics 28(1), 1979)
over reals, `Median` the in-place quickselect with an arbitrary pivot.

Check everything with `dafny verify dfyconfig.toml`.

## What the code does not do

- A delete whose delay realtime() maps to 0 (the negated clock, or the time 2^32 seconds after the server's start)
  sets a lock that is over at once, so the next delete finds the item again and queues it twice.
  `CacheCommands.DeleteTwice` has the exact condition, `ZeroDelays` these two inputs. `DeleteTwiceAsserts`: reaping
  then meets the second entry with ITEM_DELETED cleared, and the assert of item_delete_lock_over fails; a build with
  NDEBUG goes on, and every other invariant still holds.
- The comment in process_update_command says that the data block of a refused store is swallowed. With noreply it is
  not; it is read as commands. `Request.RefusedBlock` says exactly when, `ProcessCommand.BlockAsCommands` for which
  lines, and `ProcessCommand.SilentRefusalExample` flushes the cache that way.
- The number of bytes to swallow is the int `vlen + 2`. For the lengths 2147483646 and 2147483647 it is negative,
  and conn_swallow then moves rcurr out of rbuf or reads without a limit (`ProcessCommand.OverflowExample` is such
  a line). The block of a refused store with a reply is skipped if and only if `vlen + 2` fits an int
  (`Request.RefusedBlock`). A stream leads there exactly if the last thing recognised on it is a refusal, with a
  reply, of such a length (`Request.AstrayExact`); on all others `Request.Connection.Drive` keeps to the buffer.
- add_iov does not look at what add_msghdr returns. If the last message has IOV_MAX iovecs, the list of messages is
  full and cannot grow, and there is a place for one more iovec, then add_iov puts it into the full message and
  returns 0; in no other case (`Response.AddingExact`). sendmsg refuses such a message, so the reply is never
  completed (`Response.Connection.Reply`). As the list has place for ten messages from the start, the first message,
  with its limit of 1400 bytes, always gets a successor.
- A comment in do_item_alloc assumes that no item stays locked for three hours. The tail repair comes to an item
  exactly if one of the last fifty of the list is referenced and has not been refreshed for that long, and it then
  frees an item that a connection or the delete queue still refers to (`CacheRuns.RepairFrees`). Runs in
  `CacheCommands` are those without such a repair.
- The comments of the k-means code number steps from 1; the code numbers them from 0. A point can therefore move on
  a distance that is not the real one, and the sum of squares can rise (`KMeans.StaleTransfer` is such an input).
  `KMeans.OptimalWrong` and `KMeans.QuickWrong` say exactly when a move of either stage is of this kind,
  `KMeans.RunOptimalWrong` when one of a whole run is; in a quick stage it is at most one for each cluster
  (`KMeans.RunQuickWrongs`). `KMeans.StagedTotal` has the sum over a run: without such moves it falls with every
  move.
- `--uniform_ratio` may be any number. Above 1, the assert of shrink_all_uniformly fails for every job, also for one
  that fits normally: `CfmCluster.UniformRatioExact`.
- The median of an even number of values is the mean of the two middle ones only if their sum fits 64 bits:
  `Median.MeanExact`.
- carm_realloc copies the size of the old allocation, which may run past the new one. `FarAlloc.FarHeap.Realloc`
  proves this harmless, because what lies behind a new allocation is not allocated yet.
- An immediate flush_all is ignored while the clock reads 1, and unlinks what was linked in this second exactly from
  2 on: `CacheCommands.ImmediateFlushExact`. The clock starts at 2 (memcached.c:148), so this does not occur;
  `FlushAllIsFinal` asks for a clock of at least 2.

## Model

| member | source | states |
|---|---|---|
| `CacheCommands.RunKeepsInv` | apps/memcached-1.2.7/items.c:211-321 | Over every run of set/add/replace/append/prepend/cas, get, delete with any delay, incr/decr, flush_all, ticks and deferred deletes from a good state: linked iff in the table once under its own key iff on the LRU list of its own class, exact reference counts, distinct CAS ids, delete-locked items in the delete queue, lists sorted by time, counters equal to what is linked |
| `CacheInvariant.InitialInv` | apps/memcached-1.2.7/items.c:41-49 | The empty cache satisfies the joint invariant |
| `CacheCommands.StepSound` | apps/memcached-1.2.7/memcached.c:849-945 | Each command keeps the joint invariant; all but flush_all also keep the links and times of items linked earlier |
| `CacheCommands.StepReferences` | apps/memcached-1.2.7/memcached.c:849-945 | References are conserved: only starting a store and a get take one, only completing and releasing return one, so do_store_item releases exactly what it takes |
| `CacheCommands.ReferencedItemsStay` | apps/memcached-1.2.7/items.c:274-299 | In every reachable state an item that a connection or the delete queue refers to is still allocated, with refcount at least 1 |
| `CacheCommands.CasStoreIsSafe` | apps/memcached-1.2.7/memcached.c:869-886 | After any run, a cas store with an id read earlier succeeds if and only if the key still holds the very same item with that id, visible; and then with the bytes of the read |
| `CacheCommands.ImmediateFlush` | apps/memcached-1.2.7/items.c:523-546 | An immediate flush_all leaves only items older than the flush time linked |
| `CacheCommands.ImmediateFlushExact` | apps/memcached-1.2.7/memcached.c:1748-1781 | An immediate flush_all unlinks what was linked in this second if and only if the clock has reached 2; at 1 it only clears the flush time |
| `CacheCommands.FlushAllIsFinal` | apps/memcached-1.2.7/memcached.c:1748-1763 | After an immediate flush_all and any further run without another one, a get returns only items linked since, and no item linked since is treated as flushed |
| `CacheCommands.DeleteTwice` | apps/memcached-1.2.7/memcached.c:1644-1667 | A key deleted twice with the same delay has its item in the delete queue at most once if and only if it was not there before, the queue had no other item twice, and realtime() does not map the delay to 0 |
| `CacheCommands.DeleteTwiceAsserts` | apps/memcached-1.2.7/memcached.c:190-193 | For a server whose locks were good so far: with such a delay, and only then, the item is queued twice and the next reaping fails the assert of item_delete_lock_over |
| `CacheCommands.ZeroDelays` | apps/memcached-1.2.7/memcached.c:190-193 | The negated clock and the time 2^32 seconds after the start are such delays |
| `CacheCommands.DeletedIsGone` | apps/memcached-1.2.7/memcached.c:1592-1637 | After a delete a lookup finds nothing, unless the item was found and realtime() maps its delay, not 0, to 0 |
| `CacheCommands.AssertsExact` | apps/memcached-1.2.7/memcached.c:2658-2674 | The asserts of do_run_deferred_deletes and item_delete_lock_over pass if and only if every entry is delete-locked and no due one is queued twice |
| `CacheCommands.RunKeepsQueue` | apps/memcached-1.2.7/memcached.c:1644-1667 | On every run, unless a delete locked an item until time 0, the delete queue holds exactly the delete-locked items, once each, and reaping passes its asserts |
| `CacheRuns.StoreSound` | apps/memcached-1.2.7/memcached.c:849-945 | do_store_item keeps the invariant and the CAS and link histories, and leaves the references as they were, on every path |
| `CacheRuns.DeltaSound` | apps/memcached-1.2.7/memcached.c:1546-1590 | do_add_delta keeps them too, in place or in a new item |
| `CacheRuns.AllocSound` | apps/memcached-1.2.7/items.c:89-181 | do_item_alloc with eviction keeps them, and returns an unlinked item of its own with one reference |
| `CacheRuns.RunDeferredSound` | apps/memcached-1.2.7/memcached.c:2658-2674 | do_run_deferred_deletes keeps them, drops exactly the queue references of the entries that are due, and leaves other references alone |
| `CacheRuns.VictimExact` | apps/memcached-1.2.7/items.c:125-137 | Eviction finds an item if and only if one of the last 50 of the list is unreferenced |
| `CacheRuns.RepairFrees` | apps/memcached-1.2.7/items.c:138-161 | The tail repair comes to an item if and only if one of the last 50 of the list is referenced and older than three hours, and always frees an item that is still referred to, against the invariant |
| `CacheRuns.FlushExact` | apps/memcached-1.2.7/items.c:523-546 | do_item_flush_expired unlinks exactly the items at or after oldest_live, because lists are sorted by time |
| `CacheInvariant.LinkKeeps` | apps/memcached-1.2.7/items.c:252-272 | do_item_link keeps the joint invariant |
| `CacheInvariant.UnlinkKeeps` | apps/memcached-1.2.7/items.c:274-286 | do_item_unlink keeps it |
| `CacheInvariant.RemoveKeeps` | apps/memcached-1.2.7/items.c:288-299 | do_item_remove of a held item keeps it |
| `CacheInvariant.UpdateKeeps` | apps/memcached-1.2.7/items.c:301-312 | do_item_update keeps it, the order of the list by time included |
| `CacheInvariant.ReplaceKeeps` | apps/memcached-1.2.7/items.c:314-321 | do_item_replace by an item with the same key keeps it |
| `CacheInvariant.GetKeeps` | apps/memcached-1.2.7/items.c:447-506 | A lookup keeps it and returns only a linked item under the key, with a reference, and not a delete-locked one unless a lock was bad; a failed one without a lock leaves the key absent |
| `Cache.CacheEngine.DoItemLink` | apps/memcached-1.2.7/items.c:252-272 | The linked structures after do_item_link: table, list, statistics and CAS id as in the abstract state; everything else unchanged |
| `Cache.CacheEngine.DoItemUnlink` | apps/memcached-1.2.7/items.c:274-286 | do_item_unlink over table, list and allocator, freeing the chunk exactly if unreferenced |
| `Cache.CacheEngine.DoItemRemove` | apps/memcached-1.2.7/items.c:288-299 | do_item_remove: one reference less, freed exactly if unlinked and unreferenced |
| `Cache.CacheEngine.DoItemUpdate` | apps/memcached-1.2.7/items.c:301-312 | do_item_update: to the head of its list, at most once a minute |
| `Cache.CacheEngine.DoItemReplace` | apps/memcached-1.2.7/items.c:314-321 | do_item_replace: unlink then link |
| `Cache.CacheEngine.ItemFree` | apps/memcached-1.2.7/items.c:183-198 | item_free: the chunk returns to its slab class and is the next one handed out there |
| `Cache.CacheEngine.DoItemGetNotedeleted` | apps/memcached-1.2.7/items.c:447-506 | do_item_get_notedeleted: delete locks, flush and expiry, and the reference |
| `Cache.CacheEngine.DoItemGetNocheck` | apps/memcached-1.2.7/items.c:513-520 | do_item_get_nocheck |
| `Cache.CacheEngine.DoItemAlloc` | apps/memcached-1.2.7/items.c:89-147 | do_item_alloc with the real allocator and eviction; it fails for an item that fits only if nothing among the last 50 of the class is unreferenced or eviction is off |
| `Cache.CacheEngine.DoItemFlushExpired` | apps/memcached-1.2.7/items.c:523-546 | do_item_flush_expired over all lists |
| `Cache.CacheEngine.DoStoreItem` | apps/memcached-1.2.7/memcached.c:849-945 | do_store_item computes the abstract store, state and result, for all six commands |
| `Cache.CacheEngine.StoreJoin` | apps/memcached-1.2.7/memcached.c:893-940 | Its append and prepend branch |
| `Cache.CacheEngine.DoAddDelta` | apps/memcached-1.2.7/memcached.c:1546-1590 | do_add_delta: the new text in place, padded, or in a new item |
| `Cache.CacheEngine.DoDeferDelete` | apps/memcached-1.2.7/memcached.c:1644-1667 | do_defer_delete: the reference moves to the queue, if and only if that has a free place or can grow; otherwise it is released |
| `Cache.CacheEngine.DoRunDeferredDeletes` | apps/memcached-1.2.7/memcached.c:2658-2674 | do_run_deferred_deletes: due entries reaped, the others compacted in order |
| `Cache.CacheEngine.CountersAgree` | apps/memcached-1.2.7/items.c:211-321 | hash_items, curr_items, curr_bytes and sizes[] equal the counts and byte totals of what is linked |
| `Cache.CacheEngine.MoveNextBucket` | apps/memcached-1.2.7/memcached.c:547-556 | A return to conn_read moves one more bucket of an expanding table and changes nothing that the cache holds |
| `CacheServer.ProcessUpdate` | apps/memcached-1.2.7/memcached.c:1466-1497 | The command up to the data block: on the engine, exactly the abstract step; a set that gets no memory drops the old value |
| `CacheServer.CompleteNread` | apps/memcached-1.2.7/memcached.c:789-842 | A block that ends in CR LF is stored and released, any other only released: the abstract steps, with the result of the store |
| `CacheServer.ProcessGet` | apps/memcached-1.2.7/memcached.c:1248-1384 | A lookup that refreshes what it finds and keeps a reference, or releases it at once if the lists of the connection have no place for it, is the abstract step |
| `CacheServer.ProcessDelete` | apps/memcached-1.2.7/memcached.c:1619-1637 | A delete, at once or deferred by any delay, is the abstract step; a deferred one that the full queue has no place for is a lookup and a release |
| `CacheServer.ProcessArithmetic` | apps/memcached-1.2.7/memcached.c:1499-1533 | Looking up, calculating, storing and releasing is the abstract step; a value strtoull does not take leaves the item alone |
| `Counters.CounterReads` | apps/memcached-1.2.7/memcached.c:1546-1590 | After incr or decr the key reads as the new value, modulo 2^64 or not below 0, whether it was padded in place or stored in a new item, and the data still ends a line |
| `Counters.ReadsPrinted` | apps/memcached-1.2.7/memcached.c:1546-1572 | A printed number followed by padding or CR LF is read back as that number |
| `CacheServer.ProcessFlushAll` | apps/memcached-1.2.7/memcached.c:1748-1783 | flush_all with any delay is the abstract step |
| `CacheRequests.StoredReads` | apps/memcached-1.2.7/memcached.c:789-945 | A store that answers STORED leaves its bytes under the key, joined to the old ones by append and prepend, and a lookup in the same second finds them if and only if they are not born expired and no flush time falls on this second |
| `CacheRequests.UpdateStores` | apps/memcached-1.2.7/memcached.c:1425-1497 | The same for a whole storage command from the allocation to the end of its block, which keeps the invariant and all references; a set always answers STORED; a block that does not end in CR LF is not stored |
| `CacheRequests.SetRequest` | apps/memcached-1.2.7/memcached.c:1425-1497 | From the bytes of a set line and its block: they are recognised as that line and that block, and the key then has exactly the block |
| `CacheLines.SetThenGet` | apps/memcached-1.2.7/memcached.c:1682-1830 | The bytes of a set, its block and a get of the same key are recognised as these three, and the get finds exactly the block if and only if it is not born expired and no flush time falls on this second |
| `CacheLines.ProcessLine` | apps/memcached-1.2.7/memcached.c:1682-1830 | process_command for get, gets, bget, incr, decr, delete and flush_all, from the bytes of the line: on the engine, exactly the abstract steps of its keys, delta or delay, or none |
| `CacheLines.ProcessGetCommand` | apps/memcached-1.2.7/memcached.c:1248-1416 | A get with any number of keys, cut seven at a time, is the lookups of all words behind the first, in order, up to a key that is too long or an item that the connection has no place for |
| `CacheLines.AskRecognised` | apps/memcached-1.2.7/memcached.c:1682-1830 | Such a line is answered at once, and the next command begins right behind it |
| `CacheLines.TokensSplit` | apps/memcached-1.2.7/memcached.c:976-1012 | Cutting a line again where tokenize_command stopped gives the words that one cut would |
| `Assoc.AssocTable.Find` | apps/memcached-1.2.7/assoc.c:489-513 | assoc_find returns the item of the key, or NULL: the table, also half-migrated, acts as a map |
| `Assoc.AssocTable.HashItemBefore` | apps/memcached-1.2.7/assoc.c:519-536 | _hashitem_before returns the cell that points at the item with the key, or the empty end cell |
| `Assoc.AssocTable.Insert` | apps/memcached-1.2.7/assoc.c:586-610 | assoc_insert adds exactly that key to the map, and starts an expansion exactly if none is under way and the table holds more than 3/2 items a bucket |
| `Assoc.AssocTable.Delete` | apps/memcached-1.2.7/assoc.c:612-630 | assoc_delete removes exactly that key |
| `Assoc.AssocTable.Expand` | apps/memcached-1.2.7/assoc.c:539-558 | assoc_expand doubles the table and moves its first bucket without changing the map |
| `Assoc.AssocTable.MoveBucketItems` | apps/memcached-1.2.7/assoc.c:565-572 | The inner loop of a bucket move: every item of the bucket goes to the bucket of its hash in the new table |
| `Assoc.AssocTable.MoveNextBucket` | apps/memcached-1.2.7/assoc.c:560-583 | One bucket move leaves the map as it is; the expansion ends after exactly hashsize(hashpower - 1) moves |
| `Assoc.ChainDecides` | apps/memcached-1.2.7/assoc.c:489-513 | The chain a lookup starts from holds the item of the key if and only if the map does |
| `Assoc.InsertOk` | apps/memcached-1.2.7/assoc.c:586-610 | Pushing a new key keeps every chain and the map, mid-expansion included |
| `Assoc.DeleteOk` | apps/memcached-1.2.7/assoc.c:612-630 | Unhooking the item of a key keeps them |
| `Assoc.MigrationEnd` | apps/memcached-1.2.7/assoc.c:560-583 | Closing a migrated bucket gives a good table again, also when it was the last one |
| `LruQueues.LruLists.LinkQ` | apps/memcached-1.2.7/items.c:211-227 | item_link_q: the pointers of exactly one doubly linked list change, with the item as its head |
| `LruQueues.LruLists.UnlinkQ` | apps/memcached-1.2.7/items.c:229-250 | item_unlink_q removes exactly that item from its list |
| `LruQueues.LinkedOk` | apps/memcached-1.2.7/items.c:211-227 | The pointer writes of item_link_q keep all lists well linked |
| `LruQueues.UnlinkedOk` | apps/memcached-1.2.7/items.c:229-250 | Those of item_unlink_q do |
| `Slabs.SlabAllocator.ClsId` | apps/memcached-1.2.7/slabs.c:85-97 | slabs_clsid is the least class that fits; 0 if and only if the size is 0 or over 1 MB |
| `Slabs.ClassSizes` | apps/memcached-1.2.7/slabs.c:100-139 | The class sizes of slabs_init increase, are aligned, end with 1 MB, and perslab chunks fit a page |
| `Slabs.SlabAllocator.MemoryAllocate` | apps/memcached-1.2.7/slabs.c:410-437 | memory_allocate hands out memory no page uses, from malloc or from the preallocated region |
| `Slabs.SlabAllocator.NewSlab` | apps/memcached-1.2.7/slabs.c:194-220 | do_slabs_newslab adds a page apart from all others, within the limit but for the first page of a class; it fails if and only if that limit is reached or the region used up |
| `Slabs.SlabAllocator.Alloc` | apps/memcached-1.2.7/slabs.c:223-272 | do_slabs_alloc hands out a chunk that was not in use; it fails if and only if the class is out of range, or has nothing free and can get no page |
| `Slabs.SlabAllocator.Free` | apps/memcached-1.2.7/slabs.c:275-302 | do_slabs_free takes the chunk back |
| `Slabs.SlabAllocator.InUseApart` | apps/memcached-1.2.7/slabs.c:223-302 | Chunks in use never overlap, across classes too |
| `Slabs.SlabAllocator.ChunkAccounting` | apps/memcached-1.2.7/slabs.c:223-302 | slabs * perslab = in use + sl_curr + end_page_free |
| `Slabs.ChunksDisjoint` | apps/memcached-1.2.7/slabs.c:223-272 | Two carved chunks of a class are equal or disjoint |
| `Hash.MixBijective` | apps/memcached-1.2.7/assoc.c:93-101 | mix is a bijection on (a, b, c): an explicit inverse, both ways round |
| `Hash.HashWords` | apps/memcached-1.2.7/assoc.c:152-218 | The 32-bit form equals the hash of the key bytes, for every length, although its loads reach past the key |
| `Hash.HashHalves` | apps/memcached-1.2.7/assoc.c:220-265 | The 16-bit form equals the same value |
| `Hash.HashBytes` | apps/memcached-1.2.7/assoc.c:267-308 | The bytewise form equals the same value |
| `Hash.Tail32Meaning` | apps/memcached-1.2.7/assoc.c:179-196 | Masking the last loads drops exactly the bytes behind the key |
| `Hash.Tail16Meaning` | apps/memcached-1.2.7/assoc.c:235-265 | Half words and an odd byte add up to the same number |
| `Response.Connection.AddMsghdr` | apps/memcached-1.2.7/memcached.c:200-236 | add_msghdr opens a message at the end of the iovecs, or fails without any effect exactly if the list is full and cannot grow; what is pending stays |
| `Response.Connection.EnsureIovSpace` | apps/memcached-1.2.7/memcached.c:628-648 | Every doubling of the iovec array leaves each message pointing at its own iovecs, in the new array; it fails without any effect exactly if the array is full and cannot grow |
| `Response.Connection.AddIov` | apps/memcached-1.2.7/memcached.c:658-706 | add_iov does exactly what the arithmetic of its counters says (Response.Adding): whether it returns 0, how many bytes of the buffer are then pending, all of them if it does, and every counter; all messages keep to IOV_MAX iovecs if and only if they did and none was overfilled |
| `Response.AddingExact` | apps/memcached-1.2.7/memcached.c:670-682 | add_iov overfills a message if and only if it is full, the list of messages is full and cannot grow, and there is place for the iovec; it then returns 0 |
| `Response.AddingEachPlenty` | apps/memcached-1.2.7/memcached.c:1330-1348 | While every realloc succeeds a whole reply is built and no message overfilled |
| `Response.Connection.Consume` | apps/memcached-1.2.7/memcached.c:2064-2077 | Exactly the accepted bytes leave the current message |
| `Response.Connection.Transmit` | apps/memcached-1.2.7/memcached.c:2033-2102 | Sent and pending bytes together never change; which message is sent, how many bytes, and which of the four results, for every outcome of sendmsg, which takes no message of more than IOV_MAX iovecs; on TRANSMIT_COMPLETE nothing is pending |
| `Response.Connection.Reply` | apps/memcached-1.2.7/memcached.c:1700-1706 | For any buffers, any socket outcomes and any failures of realloc: exactly when the reply is built, and which part of its bytes otherwise; the client sees a prefix of that part, and all of it on completion; if no buffer is empty and the socket takes something each time, it completes if and only if no message was overfilled |
| `Response.RepointKeeps` | apps/memcached-1.2.7/memcached.c:628-648 | The re-pointing loop changes nothing that is read through the messages |
| `Request.Connection.TryReadCommand` | apps/memcached-1.2.7/memcached.c:1834-1861 | A line is processed if and only if there is a newline, and cut out there; without one everything received has been recognised |
| `Request.Connection.TryReadNetwork` | apps/memcached-1.2.7/memcached.c:1908-1971 | Any sequence of reads appends to the unconsumed bytes, through moves and doublings of rbuf, and reports whether anything arrived; if rbuf cannot grow the connection gives up |
| `Request.Connection.BackToRead` | apps/memcached-1.2.7/memcached.c:493-513 | conn_shrink keeps the unconsumed bytes |
| `Request.Connection.Nread` | apps/memcached-1.2.7/memcached.c:2163-2208 | The item is filled with the next bytes of the stream, from rbuf and then the socket |
| `Request.Connection.SwallowData` | apps/memcached-1.2.7/memcached.c:2210-2253 | Exactly sbytes bytes of the stream are dropped, and rcurr stays inside rbuf, if sbytes is not negative; it goes astray exactly if sbytes is negative |
| `Request.Connection.CompleteNread` | apps/memcached-1.2.7/memcached.c:2165-2168 | A complete item carries exactly its block |
| `Request.Connection.Drive` | apps/memcached-1.2.7/memcached.c:2144-2253 | For every way the network splits the input, what has been recognised is a prefix of what one pass over the whole stream recognises; [rcurr, rcurr + rbytes) is the received but unconsumed end of it, inside rbuf, unless conn_swallow went astray, which it never does on a stream where the one pass does not; on such a stream, with a willing socket and memory, a number of turns given in advance is enough to recognise everything |
| `Request.Connection.TakeTurn` | apps/memcached-1.2.7/memcached.c:2144-2253 | One turn of drive_machine: with a willing socket and memory it comes nearer to the state in which nothing more can happen, or that is reached |
| `Request.RunMore` | apps/memcached-1.2.7/memcached.c:1834-1861 | Reading the stream in two parts recognises the same commands and blocks as reading it at once |
| `Request.StoredBlock` | apps/memcached-1.2.7/memcached.c:1492-1496 | A stored block is exactly the vlen + 2 bytes behind its command line, and the next command starts behind it |
| `Request.RefusedBlock` | apps/memcached-1.2.7/memcached.c:1468-1488 | The block of a refused store is skipped, and the next command read behind it, if and only if the command was without noreply and vlen + 2 fits an int |
| `Request.OverflowsExact` | apps/memcached-1.2.7/memcached.c:1474-1478 | The number of bytes to swallow is negative exactly for a refusal, with a reply, of a length that overflows with 2 added |
| `Request.AstrayExact` | apps/memcached-1.2.7/memcached.c:1474-1478 | A stream goes astray if and only if the last thing recognised on it is a refusal, with a reply, of a length that overflows with 2 added |
| `ProcessCommand.TokenizeCommand` | apps/memcached-1.2.7/memcached.c:976-1012 | tokenize_command finds exactly the first seven words of the line, each now ending in a NUL, and overwrites nothing but spaces |
| `ProcessCommand.TokensOfJoin` | apps/memcached-1.2.7/memcached.c:976-1012 | A line of words joined by spaces is cut into these words |
| `ProcessCommand.NumberOfDecimal` | apps/memcached-1.2.7/memcached.c:1446-1448 | strtol reads back what is printed in decimal |
| `ProcessCommand.TooLarge` | apps/memcached-1.2.7/memcached.c:1466-1476 | A set of a block of a megabyte or more is refused, whatever its key, flags and expiry, also where the size wraps around |
| `ProcessCommand.ItemSizeExact` | apps/memcached-1.2.7/items.c:81-87 | The size of an item with its wrap-around: over a megabyte for every block of a megabyte or more, and otherwise the block itself is smaller |
| `ProcessCommand.AcceptedFits` | apps/memcached-1.2.7/memcached.c:1466-1476 | Every accepted line has a block smaller than a megabyte, so its vlen + 2 does not overflow |
| `ProcessCommand.OverflowExample` | apps/memcached-1.2.7/memcached.c:1474-1478 | set k 0 0 2147483647: the number of bytes to swallow is -2147483647 |
| `ProcessCommand.BlockAsCommands` | apps/memcached-1.2.7/memcached.c:1468-1488 | Of such a line, the block is read as commands with noreply; without, it is skipped if and only if its length fits an int, and otherwise the number of bytes to swallow is negative |
| `ProcessCommand.SilentRefusalExample` | apps/memcached-1.2.7/memcached.c:756-762 | set k 0 0 1048576 noreply with a block that begins with flush_all: the second command is flush_all |
| `FarRuns.RunIsFlat` | runtime/src/libc_support.cpp:28-51 | Any interleaving of guarded reads, guarded writes and evacuations returns what flat memory would, and loses no write |
| `FarRuns.GuardOk` | runtime/src/libc_support.cpp:28-51 | A passed guard yields the current address of the object; one for writing, an object already recorded dirty |
| `FarWorld.InitialOk` | runtime/src/carm.cpp:47-51 | After flush_carn_meta_obj every access takes the slow path |
| `FarWorld.DereffedOk` | runtime/src/carm.cpp:69-99 | The slow path creates or fetches the object and records a word that matches it, and moves no present object |
| `FarWorld.EvacuatedOk` | runtime/src/carm.cpp:205-209 | Evacuation with update_cache_object keeps every guard honest and is invisible to the program |
| `FarWorld.RecycledOk` | runtime/src/libc_support.cpp:289-294 | Moving an object to a new index leaves all other pages and guards alone |
| `FarMem.SplitRoundTrip` | runtime/inc/carm.hpp:37-64 | The split into object index and offset loses nothing and is the only one |
| `FarLibc.FarRuntime.PtrDeref` | runtime/src/libc_support.cpp:28-51 | _ptrDeref: resident afterwards, at the address returned, and memory looks as before |
| `FarLibc.FarRuntime.CarmMemcpy` | runtime/src/libc_support.cpp:69-192 | carm_memcpy is memcpy on flat memory, for every offset and every mix of host and far memory |
| `FarLibc.FarRuntime.CarmMemset` | runtime/src/libc_support.cpp:201-234 | carm_memset is memset |
| `FarLibc.FarRuntime.CarmMemcmp` | runtime/src/libc_support.cpp:456-594 | carm_memcmp is the difference of the first bytes that differ; a far destination needs to be mapped only up to there |
| `FarLibc.FarRuntime.CarmStrlen` | runtime/src/libc_support.cpp:380-415 | carm_strlen is strlen |
| `FarLibc.FarRuntime.CarmStrcpy` | runtime/src/libc_support.cpp:417-443 | carm_strcpy copies the string and its terminator |
| `FarLibc.FarRuntime.CarmStrcmp` | runtime/src/libc_support.cpp:700-725 | carm_strcmp decides like strcmp although it compares strlen(s) + 1 bytes; only a host destination of a far string has to be that long |
| `FarLibc.ShorterDecides` | runtime/src/libc_support.cpp:700-725 | The bytes up to the end of the shorter string decide the comparison, so a far destination need not be mapped any further |
| `FarMem.CompareIsStrCompare` | runtime/src/libc_support.cpp:700-725 | Comparing strlen(s) + 1 bytes equals comparing strings, whatever follows the shorter one |
| `FarAlloc.SizeConstraintsMeaning` | runtime/src/libc_support.cpp:61-66 | enforce_size_constraints is the least positive multiple of 8 not below the size; 0 exactly if the sum overflows |
| `FarAlloc.FarHeap.RemoteMalloc` | runtime/src/libc_support.cpp:243-260 | A new aligned allocation, disjoint from all live ones and mapped |
| `FarAlloc.FarHeap.Calloc` | runtime/src/libc_support.cpp:262-286 | The same, with every byte 0 and every live byte untouched |
| `FarAlloc.FarHeap.UpdateObjectList` | runtime/src/libc_support.cpp:289-294 | Recycling an object none of whose bytes is live or still to be allocated |
| `FarAlloc.FarHeap.FreeChunk` | runtime/src/libc_support.cpp:312-347 | One pass of carm_free: the count never passes the object size, the object is recycled exactly when it is full and exists, and then none of its bytes is live or yet to be allocated |
| `FarAlloc.FarHeap.CarmFree` | runtime/src/libc_support.cpp:296-354 | carm_free never reaches its abort, counts each freed byte once unless it stops at a full object that was never created, and changes no live byte |
| `FarAlloc.FarHeap.Realloc` | runtime/src/libc_support.cpp:357-377 | carm_realloc preserves the first min(old, new) bytes and disturbs no other live allocation, although it copies the old size |
| `FarAlloc.OwnersDistinct` | runtime/src/libc_support.cpp:289-294 | ptrs_ is injective on indices that are not fully freed |
| `FarAlloc.LiveRegion` | runtime/src/libc_support.cpp:243-260 | All bytes of a live allocation stay mapped |
| `FarProgram.ProgramIsFlat` | runtime/src/libc_support.cpp:243-377 | On every run of malloc, calloc, free, realloc, the libc routines, reads, writes and evacuations, each operation returns what a flat memory returns and leaves every byte of a live allocation as it has it |
| `FarProgram.StepIsFlat` | runtime/src/libc_support.cpp:69-234 | One operation, from what the runtime promises in its own terms: blocks appear where nothing was visible, and only the bytes named change |
| `FarProgram.Perform` | runtime/src/libc_support.cpp:243-377 | Each allowed operation of the runtime is such a step |
| `CfmCluster.RunNeverFails` | fastswap/cfm/scheduler.py:95-115 | On every run from checkin, a workload the scheduler admits meets everything execute needs, even if others finished since the last report. A step promises what the methods of the server promise, and only where their demands are met |
| `CfmCluster.RunKeeps` | fastswap/cfm/scheduler.py:148-170 | On every run each machine keeps its invariant (CPU partition, free_cpus = free CPUs, reclaimer CPU free while memory is over-promised, shares), because admission gives execute what it demands, and the far memory of the variable policy stays within max_far |
| `CfmCluster.AdmissionSuffices` | fastswap/cfm/scheduler.py:282-340 | Either admission test on a report that errs on the safe side implies that execute succeeds |
| `CfmCluster.UniformRatioExact` | fastswap/cfm/server.py:308-315 | A job that fits normally passes the assert of shrink_all_uniformly if and only if the uniform ratio is at most 1 |
| `CfmCluster.FarCapKept` | fastswap/cfm/scheduler.py:298-312 | Under the variable policy the estimate is never below the far memory that results |
| `CfmCluster.FindServerFits` | fastswap/cfm/scheduler.py:95-115 | The first server that fits normally; only if there is none, the first that fits with far memory |
| `CfmCluster.ExecOne` | fastswap/cfm/scheduler.py:148-170 | The first pending workload that some server fits |
| `CfmServer.Machine.Execute` | fastswap/cfm/server.py:236-278 | With those resources no pop finds an empty set and no assert fails; the new workload gets CPUs that were free, others keep theirs but for the one moved off the reclaimer CPU |
| `CfmServer.Machine.CheckReclaimerCpu` | fastswap/cfm/server.py:181-212 | Afterwards the reclaimer CPU is free, its workload sits on a CPU that was free, and the other free CPUs are offered |
| `CfmServer.Machine.CheckState` | fastswap/cfm/server.py:171-179 | using_remote_mem is exactly alloc_mem > total_mem |
| `CfmServer.Machine.CheckFinished` | fastswap/cfm/server.py:391-430 | Finished workloads give back CPUs and memory, the others share again, and the invariant holds |
| `CfmServer.Machine.ShrinkAllUniformly` | fastswap/cfm/server.py:308-319 | Every workload gets the local ratio |
| `CfmServer.Machine.ShrinkAllProportionally` | fastswap/cfm/server.py:321-340 | Every share lies between min_mem and ideal_mem and they add up to min(total ideal memory, total_mem) |
| `CfmModel.PinnedApart` | fastswap/cfm/server.py:181-212 | No two running workloads share a CPU, and none has a free one |
| `KMeans.TransferredOk` | exp/fig8/kmeans.c:2081-2118 | A transfer keeps every centre the mean of its members, every cluster nonempty, and an1 and an2 equal n/(n-1) and n/(n+1) |
| `KMeans.TransferredSsq` | exp/fig8/kmeans.c:2081-2118 | The exact change of the within-cluster sum of squares: n2/(n2+1) D2 - n1/(n1-1) D1 |
| `KMeans.TransferLowers` | exp/fig8/kmeans.c:2072-2080 | It falls if and only if the offer is below the saving |
| `KMeans.PopulationTotal` | exp/fig8/kmeans.c:2101-2102 | The populations add up to the number of points |
| `KMeans.Clusterer.Start` | exp/fig8/kmeans.c:1679-1798 | Every point starts in its closest cluster, centres become means, the distances are what malloc left; it fails if and only if a centre is closest to no point |
| `KMeans.Clusterer.Transfer` | exp/fig8/kmeans.c:2087-2117 | The in-place update is that transfer |
| `KMeans.Clusterer.Nearest` | exp/fig8/kmeans.c:2036-2068 | The cheapest offer among the clusters looked at |
| `KMeans.Clusterer.OptimalStep` | exp/fig8/kmeans.c:2010-2119 | One optimal-transfer step takes the best offer among the clusters looked at if it is below the distance on record, and changes the total by exactly the offer less the saving; with a recomputed distance and all clusters live, no move means that none would lower it |
| `KMeans.PathTotal` | exp/fig8/kmeans.c:2070-2118 | Over any sequence of visits of both stages the total changes by exactly the offers less the savings of the moves, which is below the sum of what the distances on record were too big by: without wrong ones it falls if anything moved |
| `KMeans.Clusterer.OptimalTransfers` | exp/fig8/kmeans.c:1902-2140 | A whole optimal-transfer stage is one visit of each point in order, up to the first that makes as many without a move as there are points; each visit recomputes, takes the best offer among the live clusters if it is below the distance on record, and keeps all the columns as the source does |
| `KMeans.OptimalWrong` | exp/fig8/kmeans.c:2014-2030 | A move of this stage is on a wrong distance if and only if its cluster was last touched by the move of point 0, or by none while ncp was 0 before the stage, and the array held another value before the stage |
| `KMeans.Clusterer.QuickStep` | exp/fig8/kmeans.c:2244-2329 | One quick-transfer step, likewise |
| `KMeans.Clusterer.QuickTransfers` | exp/fig8/kmeans.c:2143-2340 | The endless loop of the quick-transfer stage ends: it visits the points round and round, up to the first time that as many visits as there are points have moved nothing |
| `KMeans.QuickWrong` | exp/fig8/kmeans.c:2244-2277 | A move of this stage is on a wrong distance if and only if nothing has touched its cluster in this stage, the ncp of the cluster did not ask for a recomputation at the first visit, and the array held another value before the stage |
| `KMeans.QuickWrongs` | exp/fig8/kmeans.c:2244-2277 | So at most one move for each cluster is on a wrong distance |
| `KMeans.MoveTracked` | exp/fig8/kmeans.c:2263-2277 | Why: a point that leaves a cluster changed in this stage has had its distance recomputed since the change |
| `KMeans.Clusterer.FirstMove` | exp/fig8/kmeans.c:2019-2030 | After a move of point 0 in the first pass, a point of its two clusters is judged by what was in the array of distances |
| `KMeans.StaleTransfer` | exp/fig8/kmeans.c:2019-2080 | The points 4, -10, 6, 5 from the centres 3 and 6: the third point moves if and only if the array held more than 128 there, and then the total rises by 126.5 |
| `KMeans.Clusterer.Run` | exp/fig8/kmeans.c:1635-1898 | kmeans_02: it starts if and only if sizes are in range and every centre is closest to some point; what follows is exactly it_num turns of the main loop, each an optimal stage and, unless that ends early, a quick stage, ended by it_max, by as many visits without a move as there are points, or by there being two clusters; the total changes by what their moves add, and falls if there was a move and none on a wrong distance; the energies add up to it |
| `KMeans.StagedTotal` | exp/fig8/kmeans.c:1800-1845 | The same total for any sequence of turns of the main loop |
| `KMeans.RunOptimalWrong` | exp/fig8/kmeans.c:1800-1845 | Which moves of the optimal stages of a run are on wrong distances: those out of a cluster that point 0 was the last to touch in the stage, and from the second turn on those out of a cluster not touched in it, if the array held another value, which in the first turn is what malloc left |
| `KMeans.RunQuickWrongs` | exp/fig8/kmeans.c:1800-1845 | In every quick stage of a run at most one move for each cluster is on a wrong distance |
| `Median.GetMedian` | apps/C_dataframe/nyc.c:318-336 | For every array and every pivot choice: a permutation of the array, and the middle value of the sorted data or half the 64-bit sum of the two middle ones |
| `Median.MeanExact` | apps/C_dataframe/nyc.c:329-332 | That half is the mean, rounded towards 0, if and only if the sum fits 64 bits |
| `Median.MedianUtil` | apps/C_dataframe/nyc.c:273-315 | Terminates and finds the order statistics n/2 and n/2 - 1, also when a value equals the -1 that means not seen |
| `Median.Partition` | apps/C_dataframe/nyc.c:243-256 | The pivot lands where nothing above it stands before it and nothing below it behind it |
| `Median.StatSorted` | apps/C_dataframe/nyc.c:273-315 | The order statistic of a position is what sorting puts there |

## Left out

- Cache.CacheEngine.DoItemAlloc: ends where the tail repair of items.c:148-156 would free an item that is still referenced; where that is, is `CacheSpec.Repair`.
- CacheRuns.AllocSound: likewise does not include the tail repair, which breaks what it states (`CacheRuns.RepairFrees`).
- Cache.CacheEngine.DoAddDelta: takes the printed number as a parameter; `CacheServer.ProcessArithmetic` calculates it. Whether errno still holds an earlier error is a parameter.
- CacheCommands.FlushAllIsFinal: asks for a 32-bit clock of at least 2, which is where the server's clock starts.
- CacheCommands.RunKeepsInv: is about runs without a tail repair (`CacheRuns.RepairFrees`), and assumes a clock that does not go back and counters (CAS ids, 16-bit reference counts, totals) that do not wrap.
- CacheCommands.StepReferences: a get of several keys is several gets; the references a connection holds are a multiset, not an array.
- Assoc.AssocTable.Insert: the hash is an arbitrary function of the key here, since the map behaviour holds for every hash; `Hash` is about the real one. Allocation of the new bucket array succeeds.
- Slabs.SlabAllocator.Alloc: malloc answers with any unused address and does not fail; the T_MEMD environment variables and preallocation at start-up are not modelled.
- Slabs.SlabAllocator.NewSlab: growing the list of pages does not fail.
- Slabs.SlabAllocator.Free: growing the stack of free chunks does not fail; where it does, the source loses the chunk.
- Response.Connection.Transmit: abstracts the staging copy of memcached.c:2045-2056 as reading the segment being sent; UDP headers are left out.
- Response.Connection.AddMsghdr: the UDP header it adds is left out.
- Response.Connection.AddIov: UDP headers are left out, and the error line that conn_write sends if nothing could be added.
- Request.Connection.Drive: what a command line means is an arbitrary function, of which `ProcessCommand.ServerDecide` is the one of the server; the limit on requests per event and UDP input are left out; after a close by the network, or without memory for the input, nothing more is claimed than that what was recognised stays a prefix. That everything is recognised is claimed for streams of up to 2^30 bytes, since rbuf does not grow beyond what an int counts.
- ProcessCommand.TooLarge: whether errno still holds an earlier error is a parameter, since the source never clears it.
- CacheLines.ProcessGetCommand: when a key is too long, the references of the keys before it are held for good, which is gets without releases; the other lines (stats, version, verbosity, slabs) do nothing to the cache and are not looked into.
- CacheRequests.SetRequest: the line, the block and the end of the request follow each other without other commands in between; `CacheRequests.StoredReads` is about the end of a request in any state.
- FarLibc.FarRuntime.CarmMemcpy: for sizes below 2^32 - 4096, because the source counts in an unsigned int that would wrap, and far regions that do not overlap upwards, as memcpy demands.
- FarLibc.FarRuntime.CarmMemset: for sizes below 2^32 - 4096, for the same reason.
- FarLibc.FarRuntime.CarmMemcmp: for sizes below 2^32 - 4096; returns the difference of the first differing bytes, of which C promises the sign.
- FarLibc.FarRuntime.CarmStrcmp: asks for strlen(s) + 1 readable bytes at a host destination of a far string, as the memcmp it calls does.
- FarLibc.FarRuntime.CarmStrcpy: for strings an int can count.
- FarAlloc.FarHeap.RemoteMalloc: the arena and the object table do not run out, sizes are at most 2^64 - 8 (larger ones round to 0), and the runtime is initialised; host malloc, free and realloc are not modelled.
- FarAlloc.FarHeap.Calloc: for rounded sizes below 2^32 - 4096, like the memset it calls.
- FarAlloc.FarHeap.Realloc: for old allocations below 2^32 - 4096 bytes, like the memcpy it calls.
- FarAlloc.FarHeap.CarmFree: for a live allocation, so each is freed at most once; free_list_map starts at 0 and unused ptrs_ entries are null.
- CfmServer.Machine.Execute: workload processes, cgroups and the affinity of their threads are left out; shares are the container ratios before rounding to whole megabytes.
- CfmServer.Machine.CheckFinished: the slow-down statistics of finished workloads are left out.
- CfmCluster.RunKeeps: the far-memory cap is not claimed for the uniform policy, which uses an estimate; shrink_all_optimally calls scipy and is left out.
- KMeans.Clusterer.Start: for two clusters or more; with one, which the check of the source lets through, it reads a second centre that is not there.
- KMeans.Clusterer.OptimalTransfers: exact arithmetic instead of doubles, and no convergence claim.
- CfmCluster.RunNeverFails: for a uniform ratio between 0 and 1; above 1 it is false (`CfmCluster.UniformRatioExact`).
- Hash.HashWords: the big-endian variant is left out.
- Arrays that the C code updates in place are sequence and map fields where no aliasing is involved (hash buckets, h_next, LRU links, slab slots, k-means columns, metadata words); the iovec, message, input and item buffers and the quickselect array are arrays.
- Workload objects of CFM are values found by idd; their mutable attributes are maps of the machine.
- Sockets, libevent, option parsing, statistics text, threads, slab reassignment, item dumps.
- carm_memchr, carm_strncpy, the stdio wrappers and the wide-character stubs; prefetching and region marking.
- Dataframe columns, benchmarks, plotting, the RDMA driver and server, generated protocol code.
