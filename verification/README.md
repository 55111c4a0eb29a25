# Allocators, caches, queues and players: a verified model

A Dafny 4.11 model of eight components of the media player, and proofs of what they promise. Each
component has functions on values that say what an operation does, theorems about all runs of these
functions, and classes or methods with the fields and loops of the program whose `ensures` tie them
to the functions.

`dafny verify dfyconfig.toml` checks the whole project.

| files | component |
|---|---|
| `ArenaMath`, `ArenaPool`, `ArenaInvariant`, `ArenaRuns`, `ArenaGrant`, `ArenaProgram`, `ArenaLimits` | the arena allocator of `ext/spidermonkey/jsarena.c` and `jsarena.h` |
| `BlobIndex`, `BlobPrune`, `BlobCache`, `BlobFile`, `BlobRestart`, `BlobProgram` | the blob cache of `src/blobcache_file.c` |
| `PlayList`, `PlayQueue`, `PlayAdvance`, `PlayRuns`, `PlayEdits`, `PlayProgram` | the play queue of `src/playqueue.c` |
| `SidMachine`, `SidSound`, `SidVoice`, `SidPlayer`, `SidCpu`, `SidOps`, `SidRuns`, `SidLoops`, `SidSong`, `SidProgram` | the SID player of `ext/audio/sid.c` |
| `TaskPool` | the task pool of `src/task.c` |
| `BsFormat`, `BsBytes`, `BsApply`, `BsFile`, `BsProgram` | binary patching, `ext/bspatch/bspatch.c` |
| `ConfigRewrite` | the rewrite of a marked region, `src/upgrade.c` |
| `ServiceProbe` | the service prober of `src/service.c` |
| `Common` | an option type and a fact about slices |

How the components are modelled:

* **Arena pool.** Addresses are numbers below the word size, sums of sizes are cut to it; what malloc
  and realloc answer is an input, constrained only to memory that overlaps no other chunk.
  `ArenaRuns` has a client that allocates, grows, writes, marks and releases; blocks older than a
  mark are not grown before it is released, a growth by realloc fits into a word with its header,
  and the blocks have at least one byte. `ArenaLimits` has the exact conditions: what fails with an
  alignment below that of a pointer, with an arenasize above the alignment that is no multiple of
  it, for a growth that does not fit into a word, and for a block of no bytes while the current
  arena is the first one. `ArenaGrant` says when the pool must answer a request, in terms of room,
  quota and word size. `ArenaProgram` is the pool as linked structs and header cells.
* **Blob cache.** Each section under the lock is a step, and each write the thread does without it is
  one. The digest of the contents is a parameter, assumed to have no collision among the contents
  that are put; keys are the 64-bit digests themselves. The map the cache refines keeps the content
  type of an earlier put where the data is the same again, as the shortcut does; its entries carry
  the time of the last access and the flags, from which it follows what may be evicted. A clear does not
  empty the write queue, and `blobcache_get` does not subtract the size of an item it forgets: the
  count is an upper bound until the next pruning. A content type of 256 bytes or more, or a buffer
  that reaches 2^32 bytes with it, is lost once it has been written to disk. Buffers that are still
  queued when the cache stops are lost too, although the saved index describes them. A start is the
  load of the index, the removal of files that it does not know, and an eviction down to the size
  limit, which also puts the chains in a new order.
* **Play queue.** Lists are sequences of entries; the assertions of `pqe_unref` are preconditions of
  `Unref`, so that every place that calls it proves them. The search for the next entry does not end
  when the current entry has been removed, repeat is on and nothing in the queue is playable; the
  meta data update runs it under the lock.
* **SID player.** `SidSound` and `SidVoice` tell waves, noise, envelopes, routing, filter and sampled
  sound from counters and registers, over any number of samples; `SidOps` and `SidLoops` tell the
  instructions from the bytes of the program and the bits of the status byte. A repeat count ends
  the sampled sound with its first nibble, as the code has it. The tables that depend on the mixing frequency are parameters. The processor takes
  its tables of operation codes and addressing modes as a parameter, so its theorems hold for any.
  In `SidPlayer` the play routine is any function from a machine that can render to one that can; in
  `SidSong` it is what the processor does from its entry until it returns, where it returns. The
  number of samples between its calls is an int product that overflows for slow timers; a player
  that gets a negative number is lost, and the model of the loop stops there.
* **Task pool, service prober.** State machines over the sections under the lock, with condition
  variables whose waits may also return without a signal.
* **Binary patching.** What bzip2 reads out of a block is a parameter, as is what malloc leaves in the
  buffer. The lengths of a patch are cut as the code cuts them, to an int for a read and to 64 bits
  for a position; a length that loses its sign on the way takes the position to before the buffer,
  and the loop goes on from there. The outcome is `Astray` where a byte that bzip2 delivers would go
  to a place outside of the buffer, and `Unbounded` where a block is read that is not within the
  patch. Above 2^31 bytes such a length can also come back inside the buffer; `PatchSucceedsIff`
  says which runs give the file described there.
* **Marked region.** Files are arrays.

## Model

| member | source | states |
|---|---|---|
| `ArenaMath.MaskRoundsDown` | ext/spidermonkey/jsarena.h:120 | clearing the bits of a power-of-two mask is rounding down to a multiple |
| `ArenaMath.UnionOfMasks` | ext/spidermonkey/jsarena.c:118-122 | the union of the pool mask and the pointer mask is the mask of the larger alignment |
| `ArenaPool.GrossOverflow` | ext/spidermonkey/jsarena.c:153-157 | the test gross < nb catches exactly the sums that do not fit the word |
| `ArenaPool.FreshArenaFits` | ext/spidermonkey/jsarena.c:150-189 | for every power-of-two alignment, below or above that of a pointer, a fresh arena has room for the request, an oversized header lies between struct and base and is aligned |
| `ArenaPool.BigBase` | ext/spidermonkey/jsarena.c:118-122 | where the base of an oversized arena ends up, aligned for the pool and for a pointer, with the header below it |
| `ArenaInvariant.AllocateCases` | ext/spidermonkey/jsarena.c:150-196 | an allocation bumps the last arena, adds one, or refuses and changes nothing |
| `ArenaInvariant.BumpKeepsOk` | ext/spidermonkey/jsarena.c:193-196 | bumping keeps base < avail <= limit, alignment, disjointness and the budget |
| `ArenaInvariant.ExtendedIsOk` | ext/spidermonkey/jsarena.c:155-189 | adding an arena keeps the pool in order, the current arena last, and quota plus sizes constant |
| `ArenaInvariant.ReallocGrows` | ext/spidermonkey/jsarena.c:209-228 | JS_ArenaRealloc is only reached for blocks that need an oversized arena, and where gross fits into a word, never shrinks the chunk |
| `ArenaPool.ReallocOverflow` | ext/spidermonkey/jsarena.c:220-225 | the assertion gross > aoff holds if and only if header and block fit into a word |
| `ArenaInvariant.ReallocKeepsOk` | ext/spidermonkey/jsarena.c:226-267 | realloc keeps the pool in order and the budget constant, also where it moves the arena: its header and that of its successor hold the links |
| `ArenaInvariant.MarkMatchIsRange` | ext/spidermonkey/jsarena.h:188-189 | the unsigned comparison of JS_ARENA_MARK_MATCH is base <= mark <= avail |
| `ArenaInvariant.MatchIsFound` | ext/spidermonkey/jsarena.c:326-338 | the search for a mark stops at the one arena that it lies in |
| `ArenaInvariant.FastReleaseIsSlow` | ext/spidermonkey/jsarena.h:203-216 | the fast path of JS_ARENA_RELEASE does what JS_ArenaRelease does |
| `ArenaInvariant.ReleaseRestores` | ext/spidermonkey/jsarena.c:293-338 | releasing to a mark brings back arenas, bump pointer and budget of the moment it was taken |
| `ArenaRuns.AllocHands` | ext/spidermonkey/jsarena.c:131-197 | an allocation hands out aligned memory inside the last arena, behind everything allocated before, or changes nothing |
| `ArenaRuns.GrowKeepsInv` | ext/spidermonkey/jsarena.h:162-180 | JS_ARENA_GROW keeps the invariant and the bytes of the block on all three paths, and leaves other blocks alone |
| `ArenaRuns.ReallocTarget` | ext/spidermonkey/jsarena.h:165-173 | where the macro hands a block to JS_ArenaRealloc the block has its arena to itself and is found by header or search |
| `ArenaRuns.ExecKeepsInv` | ext/spidermonkey/jsarena.h:146-216 | every legal client operation keeps the invariant and the budget |
| `ArenaRuns.PoolIsSafe` | ext/spidermonkey/jsarena.c:131-346 | after every run: blocks disjoint, aligned, inside [base, avail), with the bytes their owner wrote; base <= avail <= limit; headers right; current last; quota plus sizes equal to the initial quota |
| `ArenaRuns.MarkReleaseRestores` | ext/spidermonkey/jsarena.h:182-216 | a mark, any operations that do not release it, and a release restore arenas, current, quota, marks and blocks; blocks not written to keep their bytes |
| `ArenaRuns.FreeReturnsQuota` | ext/spidermonkey/jsarena.c:341-346 | after every run JS_FreeArenaPool gives the whole quota back and leaves the first arena |
| `ArenaGrant.AllocAnswersIff` | ext/spidermonkey/jsarena.c:131-196 | where the current arena has room the request is met there; otherwise it is met if and only if struct, slop, header and data fit into a word, are within the quota if there is one, and malloc does not answer 0, with an arena of exactly that size, which the quota pays for; else the answer is NULL and the pool stays |
| `ArenaGrant.GrowPathIff` | ext/spidermonkey/jsarena.h:162-180 | a block grows in place if and only if it is the last of the current arena and that has room, and is copied if and only if it is small, does not grow in place, and has not the current arena to itself |
| `ArenaGrant.InPlaceAnswers` | ext/spidermonkey/jsarena.h:165-170 | a growth in place keeps the address and moves the bump pointer alone |
| `ArenaGrant.CopyAnswersIff` | ext/spidermonkey/jsarena.c:271-287 | a growth by copy succeeds exactly where an allocation of the whole block does, in terms of room, quota, word and malloc |
| `ArenaGrant.ReallocAnswersIff` | ext/spidermonkey/jsarena.c:226-241 | JS_ArenaRealloc succeeds if and only if the growth of the arena is within the quota and realloc does not answer 0; the quota pays for exactly that |
| `ArenaLimits.LiveBlocksOverlap` | ext/spidermonkey/jsarena.h:146-180 | with an alignment below that of a pointer, from a new pool: an oversized block, a second block, and the growth of the first where realloc leaves it in place end with two live blocks that overlap |
| `ArenaLimits.SlopIsHandedOut` | ext/spidermonkey/jsarena.h:146-157 | the slop behind any oversized block of such a pool is handed out |
| `ArenaLimits.EmptyBlockGrows` | ext/spidermonkey/jsarena.h:162-180 | the growth of a block of no bytes is an allocation, unless the current arena is the first one and the block is there: exactly then it goes to JS_ArenaRealloc, whose search finds no arena |
| `ArenaLimits.HeaderIsFoundIff` | ext/spidermonkey/jsarena.c:205-216 | a block grown in place can be found for the next growth if and only if arenasize is a multiple of the alignment or below it |
| `ArenaLimits.GrownFitsIff` | ext/spidermonkey/jsarena.c:219-260 | after a successful realloc the block lies within its chunk, and base <= avail <= limit holds, if and only if header and block fit into a word |
| `ArenaLimits.BlockLeavesChunk` | ext/spidermonkey/jsarena.c:219-260 | from every new pool without a quota there is a growth for which they do not, and which realloc need not refuse |
| `ArenaLimits.AlignWrapsIff` | ext/spidermonkey/jsarena.h:120 | rounding a size up in words loses it, so that the request is for no bytes, if and only if the multiple is no word |
| `ArenaProgram.JSArenaPool.constructor` | ext/spidermonkey/jsarena.c:63-75 | the initialised pool is the model's initial pool |
| `ArenaProgram.JSArenaPool.AddArena` | ext/spidermonkey/jsarena.c:153-191 | one malloc: the linked structs, header cell, quota and memory afterwards are those of the extended sequence |
| `ArenaProgram.JSArenaPool.ArenaAllocate` | ext/spidermonkey/jsarena.c:131-197 | the search loop over next pointers equals the sequence model, from any current arena |
| `ArenaProgram.JSArenaPool.Alloc` | ext/spidermonkey/jsarena.h:146-157 | the macro with its inline fast path equals JS_ArenaAllocate |
| `ArenaProgram.JSArenaPool.FindLink` | ext/spidermonkey/jsarena.c:205-216 | header cell and search both find the link that points at the block's arena |
| `ArenaProgram.JSArenaPool.ArenaRealloc` | ext/spidermonkey/jsarena.c:199-269 | pointers, cells, quota and bytes after realloc are those of the model |
| `ArenaProgram.JSArenaPool.Resize` | ext/spidermonkey/jsarena.c:217-264 | the quota check, realloc with a size cut to the word, and memmove are those of the model |
| `ArenaProgram.JSArenaPool.Relink` | ext/spidermonkey/jsarena.c:243-255 | all pointers to a moved arena follow it |
| `ArenaProgram.JSArenaPool.ArenaGrow` | ext/spidermonkey/jsarena.c:271-287 | JS_ArenaGrow reallocates or copies as the model does |
| `ArenaProgram.JSArenaPool.Grow` | ext/spidermonkey/jsarena.h:162-180 | the macro JS_ARENA_GROW equals the model on every path |
| `ArenaProgram.JSArenaPool.TakeMark` | ext/spidermonkey/jsarena.h:182 | a mark is the bump pointer of the current arena |
| `ArenaProgram.JSArenaPool.FreeArenaList` | ext/spidermonkey/jsarena.c:293-324 | the loop frees exactly the arenas behind the head, credits their sizes, and resets current |
| `ArenaProgram.JSArenaPool.ArenaRelease` | ext/spidermonkey/jsarena.c:326-338 | the search and truncation equal the model's slow release |
| `ArenaProgram.JSArenaPool.Release` | ext/spidermonkey/jsarena.h:203-216 | the macro equals the model's release |
| `ArenaProgram.JSArenaPool.FreeArenaPool` | ext/spidermonkey/jsarena.c:341-346 | frees every arena but the first |
| `BlobIndex.PutIs` | src/blobcache_file.c:469-491 | storing an item under its key leaves every other lookup, keeps keys unique and in their bucket, and changes the total by the difference of sizes |
| `BlobIndex.DropIs` | src/blobcache_file.c:555-559 | unlinking an item removes its key only, and its size from the total |
| `BlobIndex.ItemsAre` | src/blobcache_file.c:762-774 | the items of all chains are those found by lookup, each once, and their sizes sum to the total |
| `BlobIndex.RefillIs` | src/blobcache_file.c:788-792 | putting distinct items back into chains gives an index of exactly those items |
| `BlobPrune.CmpIsRank` | src/blobcache_file.c:737-750 | between items of one importance the comparator agrees with the order of access times if and only if these are less than 2^31 apart |
| `BlobPrune.CmpIsPreorder` | src/blobcache_file.c:737-750 | within 2^31 the comparator is a total preorder, by importance and then access time |
| `BlobPrune.CmpCanCycle` | src/blobcache_file.c:749 | three access times over a wider range that compare in a circle |
| `BlobPrune.PruneIs` | src/blobcache_file.c:756-792 | after prune_to_size the count is exact and below a positive limit, a minimal prefix was evicted, what is kept is unchanged, and nothing evicted ranks above anything kept |
| `BlobCache.LengthTest` | src/blobcache_file.c:562-567 | the length test succeeds exactly for lengths the index can hold, and then the parts of the file are content type and data |
| `BlobCache.PutRefines` | src/blobcache_file.c:421-494 | blobcache_put, with its shortcut, is a put into the map, time of access and flags included |
| `BlobCache.GetRefines` | src/blobcache_file.c:500-614 | blobcache_get answers from the map and marks the entry as used, or misses and forgets it, the latter only if it has expired or does not fit the index |
| `BlobCache.HitMarksUsed` | src/blobcache_file.c:576-578 | a hit while the clock is good sets the time of the last access of that item to now, and changes nothing else of it nor of any other item |
| `BlobCache.PutMarksUsed` | src/blobcache_file.c:453-491 | a put stores the time of access, the modification time and the flags it is given, and changes no other item |
| `BlobCache.GetUnlinksIff` | src/blobcache_file.c:536-573 | a lookup leaves the count as it is, and unlinks the file if and only if it would be read and has another length than the index says |
| `BlobCache.FilesGo` | src/blobcache_file.c:723-729 | eviction and clearing unlink exactly the files of the items that go |
| `BlobCache.SizeOfIndex` | src/blobcache_file.c:762-774 | the count of the index is the size of the map that it stands for |
| `BlobCache.FoundIff` | src/blobcache_file.c:540-568 | a live item is found if and only if its buffer is still queued or has lengths the index can hold |
| `BlobCache.ClearRefines` | src/blobcache_file.c:824-843 | cache_clear empties the map, whatever the writing thread is doing |
| `BlobCache.PruneRefines` | src/blobcache_file.c:756-796 | eviction removes entries from the map together with their files and makes the count exact; what stays is below a positive limit, one eviction less would not do, and within 2^31 seconds nothing goes that is more important or was used later than something that stays |
| `BlobCache.FinishRefines` | src/blobcache_file.c:904-909 | removing the written head from the queue changes no content |
| `BlobCache.StepRefines` | src/blobcache_file.c:421-915 | every step of every thread refines a step of the map |
| `BlobCache.RunRefines` | src/blobcache_file.c:421-915 | over every interleaving the cache stands for a map that changes and answers as a map |
| `BlobCache.CacheIsInOrder` | src/blobcache_file.c:469-488 | in every reachable state the count covers the indexed sizes, keys are unique and in their bucket, and the written buffer is the head of the queue |
| `BlobCache.DrainedIsOnDisk` | src/blobcache_file.c:884-909 | once the queue is empty each indexed file has the content of the latest put |
| `BlobCache.PutIsFound` | src/blobcache_file.c:450-568 | what was put is found again with the same bytes, tag and time, whatever the thread has got to, until it is replaced, cleared or evicted |
| `BlobFile.FixedParts` | src/blobcache_file.c:69-80 | where each field of a record is in the file |
| `BlobFile.LittleEndian` | src/blobcache_file.c:69-80 | numbers are stored with the lowest byte first |
| `BlobFile.LoadOfSaved` | src/blobcache_file.c:217-412 | loading a saved index gives the same items in the same order, byte by byte |
| `BlobFile.TagLimit` | src/blobcache_file.c:247-256 | the loader finds the end of a record if and only if its tag has at most 255 bytes |
| `BlobFile.LoadReverses` | src/blobcache_file.c:401-411 | after a load each chain is reversed and an empty tag is none |
| `BlobFile.TwoLoadsRestore` | src/blobcache_file.c:401-411 | two loads with nothing in between restore the order |
| `BlobProgram.CacheFile.Search` | src/blobcache_file.c:443-445 | the walk along a chain finds the first item of the key |
| `BlobProgram.CacheFile.BlobPut` | src/blobcache_file.c:421-494 | the program's put is the model's, and it returns whether the content was there |
| `BlobProgram.CacheFile.Queued` | src/blobcache_file.c:543-549 | the backward search finds the newest queued buffer |
| `BlobProgram.CacheFile.BlobGet` | src/blobcache_file.c:500-614 | the program's get is the model's, with the same answer |
| `BlobProgram.CacheFile.CacheClear` | src/blobcache_file.c:831-839 | the loops unlink exactly the indexed files and empty the index |
| `BlobProgram.CacheFile.Collect` | src/blobcache_file.c:762-776 | the first loops of prune_to_size gather all items, empty the chains and sum the sizes |
| `BlobProgram.CacheFile.Evict` | src/blobcache_file.c:779-786 | the eviction loop removes the shortest prefix that brings the count below the limit |
| `BlobProgram.CacheFile.PruneToSize` | src/blobcache_file.c:756-796 | the whole of prune_to_size is the model's |
| `BlobProgram.CacheFile.FinishWrite` | src/blobcache_file.c:904-914 | what the thread does after a write is the model's step |
| `BlobProgram.CacheFile.Measure` | src/blobcache_file.c:217-226 | the first pass computes the exact size of the file |
| `BlobProgram.CacheFile.SaveIndex` | src/blobcache_file.c:217-264 | the second pass fills a buffer of that size exactly, with the bytes of the format |
| `BlobProgram.CacheFile.LoadIndex` | src/blobcache_file.c:301-412 | loading links the items in front of their chains and adds their sizes; a file with a wrong hash or magic changes nothing; it tells whether the records stay within the file |
| `BlobRestart.StepKeepsTags` | src/blobcache_file.c:431-432 | the 255-byte limit of blobcache_put keeps every tag of the index such that it survives saving and loading |
| `BlobRestart.IndexSurvives` | src/blobcache_file.c:217-412 | after every run what save_index writes is read back by load_index, as the index with its chains reversed |
| `BlobRestart.ReloadedAt` | src/blobcache_file.c:401-411 | a loaded index finds under each key what the saved one had, but for an empty tag |
| `BlobRestart.RestartRefinesIff` | src/blobcache_file.c:947-951 | a cache that has been started again, with load_index, prune_stale and prune_to_size, stands for what survives of its map if and only if no surviving key has a queued buffer that its file has not got |
| `BlobRestart.NothingEvictedIff` | src/blobcache_file.c:756-796 | the start evicts nothing if and only if there is nothing, or all sizes together are below the limit |
| `BlobRestart.WholeMapIff` | src/blobcache_file.c:947-951 | it stands for the whole map if and only if nothing is evicted and no key has a queued buffer that its file has not got |
| `BlobRestart.StaleAfterRestart` | src/blobcache_file.c:871-916 | a put of other data of the same length that is still queued at the stop makes the next start answer with the old bytes under the new tag, unless it evicts the key |
| `PlayQueue.RemoveSourceKeepsInv` | src/playqueue.c:261-272 | leaving the source list keeps lists, marks, numbers and reference counts in order |
| `PlayQueue.RemoveGlobalKeepsInv` | src/playqueue.c:303-318 | so does leaving the queue; the assertions of pqe_unref hold |
| `PlayQueue.ShuffledPlace` | src/playqueue.c:357-379 | a new entry goes one place behind the one drawn, and never first but into an empty list |
| `PlayQueue.AddFromSourceKeepsInv` | src/playqueue.c:436-507 | add_from_source keeps everything in order, the source list as the restriction of the linear one |
| `PlayQueue.MoveKeepsInv` | src/playqueue.c:525-553 | move_track keeps everything in order |
| `PlayQueue.DelFromSourceKeepsInv` | src/playqueue.c:513-519 | del_from_source keeps everything in order |
| `PlayQueue.Clear` | src/playqueue.c:325-345 | playqueue_clear leaves empty lists, length 0 and right reference counts |
| `PlayEdits.MovesBefore` | src/playqueue.c:525-553 | move_track puts the entry directly in front of the one it is given, or last, in the linear and in the source list; the order of all others stays, and no entry, event or reference changes |
| `PlayEdits.AddsBefore` | src/playqueue.c:436-507 | add_from_source puts the new entry directly in front of the one it is given, or last, in both lists, with what is to happen when its URL comes; no event is sent |
| `PlayEdits.DeletesOnly` | src/playqueue.c:513-519 | del_from_source takes the entry out of all three lists and leaves the order of the others; it is freed if and only if nothing else refers to it |
| `PlayEdits.PlaysAlone` | src/playqueue.c:740-774 | playqueue_play leaves the new entry alone in the queue and sends a jump to it behind the waiting events |
| `PlayEdits.EnqueueJumpsIff` | src/playqueue.c:693-726 | playqueue_enqueue sends a jump if and only if nothing is current |
| `PlayEdits.UrlStartsIff` | src/playqueue.c:385-401 | a URL that comes sends a jump if and only if the entry was to start, and only once |
| `PlayEdits.TakesEvent` | src/playqueue.c:1080-1085 | the player then holds the entry of the event that is delivered, and the others wait in their order |
| `PlayEdits.FirstIsHeld` | src/playqueue.c:1086-1098 | the player takes up the first entry of the queue with a reference of its own |
| `PlayEdits.SwitchesSet` | src/playqueue.c:782-799 | shuffle and repeat are as they are switched |
| `PlayRuns.EnqueueExtendsBlock` | src/playqueue.c:695-717 | an enqueued entry goes to the end of the block of enqueued entries behind the current one |
| `PlayRuns.EnqueuedInOrder` | src/playqueue.c:697-717 | entries enqueued one after the other under one current entry stand in the order in which they came |
| `PlayRuns.PlayUrlKeepsInv` | src/playqueue.c:740-774 | playqueue_play keeps everything in order |
| `PlayRuns.TakeEventKeepsInv` | src/playqueue.c:1080-1085 | delivering a jump event moves its reference to the player |
| `PlayRuns.DropEventKeepsInv` | src/playqueue.c:200-206 | an event that is not delivered gives its reference back |
| `PlayRuns.AdvanceToKeepsInv` | src/playqueue.c:1016-1034 | playqueue_advance keeps the reference counts, also when it stays where it is |
| `PlayRuns.NextKeepsInv` | src/playqueue.c:168-1181 | every step of users, source and player keeps the invariant |
| `PlayRuns.QueueIsInOrder` | src/playqueue.c:168-1181 | after every run: same entries once in both lists, length, numbers, linked marks, source order, and refcount = source + linked + undelivered events + held, at least 1 while allocated |
| `PlayAdvance.AdvanceLinked` | src/playqueue.c:943-988 | from a linked entry the search ends within as many rounds as there are entries, with the first playable entry of the lap, the start itself, or NULL |
| `PlayAdvance.AdvanceGoesTo` | src/playqueue.c:943-988 | by places in the shuffled list if shuffle is on and else in the linear one: the first entry after, or before, the current one, with repeat round to it, that is playable or itself, and NULL if there is none |
| `PlayAdvance.AdvanceUnlinked` | src/playqueue.c:983-986 | from an unlinked entry, where it ends, it goes on from the first entry |
| `PlayAdvance.GoesRound` | src/playqueue.c:950-986 | with repeat and nothing playable a search from an unlinked entry never ends |
| `PlayRuns.SearchCanGoRound` | src/playqueue.c:943-988 | a run of six steps from the empty queue comes to a queue in which the search does not end: the player holds a deleted entry, an unplayable one is left, and repeat is on |
| `PlayAdvance.AdvanceEndsIff` | src/playqueue.c:943-988 | the search ends if and only if its start is linked, or repeat is off, or the queue is empty, or something is playable |
| `PlayAdvance.SkipBackUndoes` | src/playqueue.c:950-981 | from a playable entry skipping back undoes skipping forward |
| `PlayProgram.Playqueue.PqRenumber` | src/playqueue.c:278-296 | the loop numbers the entries from the given one on by their places |
| `PlayProgram.Playqueue.PqeInsertShuffled` | src/playqueue.c:357-379 | the loop inserts where the model says |
| `PlayProgram.Playqueue.PqeUnref` | src/playqueue.c:168-186 | the entry is freed with its last reference, its assertions being preconditions met by every caller |
| `PlayProgram.Playqueue.PqeRemoveFromSourcequeue` | src/playqueue.c:261-272 | the program's step is the model's |
| `PlayProgram.Playqueue.PqeRemoveFromGlobalqueue` | src/playqueue.c:303-318 | the program's step is the model's, with renumbering from the next entry only |
| `PlayProgram.Playqueue.AddEntry` | src/playqueue.c:436-507 | add_from_source is the model's |
| `PlayProgram.Playqueue.DelEntry` | src/playqueue.c:513-519 | del_from_source is the model's |
| `PlayProgram.Playqueue.MoveTrack` | src/playqueue.c:525-553 | move_track is the model's |
| `PlayProgram.Playqueue.PlayqueueClear` | src/playqueue.c:341-345 | both loops empty both queues as the model does |
| `PlayProgram.Playqueue.PlayqueueEnqueue` | src/playqueue.c:665-724 | playqueue_enqueue, with the loop that skips enqueued entries, is the model's |
| `PlayProgram.Playqueue.PlayqueuePlay` | src/playqueue.c:740-774 | playqueue_play is the model's |
| `PlayProgram.Playqueue.Advance0` | src/playqueue.c:943-988 | the loop returns what the search of the model finds |
| `PlayProgram.Playqueue.PlayqueueAdvance` | src/playqueue.c:1016-1034 | the next entry is referenced before the old one is let go |
| `SidMachine.RenderSplit` | ext/audio/sid.c:346-540 | rendering a + b samples is rendering a and then b, in output and state |
| `SidMachine.SetUpSettles` | ext/audio/sid.c:353-383 | setting up from the registers is idempotent |
| `SidMachine.OscInRange` | ext/audio/sid.c:394-488 | one sample keeps an oscillator's envelope in [0, 0xffffff] and its counter below 2^28, sync included |
| `SidMachine.EnvelopeFitsInt` | ext/audio/sid.c:449-488 | no envelope step leaves the range of the int it is compared as |
| `SidMachine.RenderInRange` | ext/audio/sid.c:346-540 | rendering any number of samples keeps every range |
| `SidMachine.SampleFits` | ext/audio/sid.c:510-534 | with the filter outputs off a sample, digi channel included, fits 16 bits and is stored unchanged |
| `SidMachine.RenderFits` | ext/audio/sid.c:373-534 | this holds for every sample while the volume register leaves the outputs off |
| `SidMachine.SetMemInRange` | ext/audio/sid.c:552-652 | every write keeps the ranges; the machine can render after it unless it starts the sample channel without a period |
| `SidMachine.PokeIs` | ext/audio/sid.c:609-652 | the 25 registers are cells: a poke sets the one it names and no other; only a control register touches the envelope of its voice, by its gate bit |
| `SidSound.WaveBitIff` | ext/audio/sid.c:409-446 | bit i of the waveform byte is set if and only if it is set in every chosen wave: triangle by the counter, rising ramp, pulse up to its width, noise |
| `SidSound.WaveAlone` | ext/audio/sid.c:409-446 | one chosen wave alone is that wave: the triangle twice the counter over 2^20 and mirrored in the second half, the ramp the counter over 2^20, the pulse 255 up to its width and 0 behind it, or the noise byte |
| `SidSound.TriangleShape` | ext/audio/sid.c:409-411 | the triangle is symmetric, rises by one level in 2^19 steps and spans all levels |
| `SidSound.CounterIs` | ext/audio/sid.c:395-407 | the counter goes round its cycle with the frequency, is held by the test bit, and is set by the sync bit to what this voice covers in the time since the other one began its cycle |
| `SidSound.NoiseRecurs` | ext/audio/sid.c:415-420 | each noise bit is the difference of the bits 23 and 18 before it |
| `SidSound.NoiseIs` | ext/audio/sid.c:415-430 | the noise register is shifted once per 2^23 of the counter, and the bits of the byte are its bits 22, 20, 16, 13, 11, 7, 4 and 2 |
| `SidVoice.AttackRises` | ext/audio/sid.c:450-458 | over any number of samples the attack rises evenly to full, and ends with the sample that reaches it |
| `SidVoice.DecayFalls` | ext/audio/sid.c:459-467 | the decay falls evenly to the sustain level, and ends with the sample that reaches it |
| `SidVoice.SustainHolds` | ext/audio/sid.c:468-477 | the sustain level is held until it is changed, and then the decay sets in again |
| `SidVoice.ReleaseFalls` | ext/audio/sid.c:478-487 | the release falls evenly to its floor |
| `SidVoice.Adsr` | ext/audio/sid.c:449-477 | attack and decay in sequence end at the sustain level for good |
| `SidVoice.VoiceSteps` | ext/audio/sid.c:394-501 | a sample takes counter and envelope of each voice one step on, and the voice puts out its wave, which is unsigned, around zero and scaled by the envelope, rounded down |
| `SidVoice.RenderedEnvelope` | ext/audio/sid.c:386-488 | over any rendering the envelope of a voice goes through one such step per sample |
| `SidVoice.RenderedPitch` | ext/audio/sid.c:396 | without sync and test bit the counter after n samples is n times the frequency further, modulo 2^28 |
| `SidVoice.ToneIs` | ext/audio/sid.c:353-362 | what the seven registers of a voice and its filter bit say |
| `SidVoice.MixerIs` | ext/audio/sid.c:365-382 | what registers 21 to 24 say of filter, outputs and volume |
| `SidVoice.VoicesAreRouted` | ext/audio/sid.c:492-501 | each voice that is heard goes to the filter or past it, by its bit, and all of it does |
| `SidVoice.SampleIs` | ext/audio/sid.c:511-534 | a sample is volume times the unfiltered voices and the outputs of the filter that are on, and the sampled sound; high-pass, band-pass and low-pass output satisfy the equations of the filter |
| `SidVoice.FilterRests` | ext/audio/sid.c:523-531 | at rest the filter passes a constant input through its low-pass output and nothing through the others |
| `SidVoice.FilterStandsOnly` | ext/audio/sid.c:523-525 | it stands still only there, up to what is too small for its arithmetic |
| `SidVoice.DigiPlays` | ext/audio/sid.c:270-322 | the sampled sound plays the nibbles of memory one after the other, low or high half first by its order, at the rate of 985248 over the period |
| `SidVoice.RepeatEnds` | ext/audio/sid.c:301-309 | a repeat count ends the sound with its first nibble, so that nothing is ever repeated |
| `SidVoice.ChannelIs` | ext/audio/sid.c:557-599 | the registers of the sample channel are cells, and only the trigger takes over what waits in them |
| `SidPlayer.RoundIsTicks` | ext/audio/sid.c:1294-1321 | a round of the chunk loop does what a player without chunks does in as many steps |
| `SidPlayer.ChunkSizesDoNotMatter` | ext/audio/sid.c:1271-1324 | samples, calls of the play routine and state depend on the number of samples and not on the sizes of the chunks |
| `SidPlayer.ChunksAreFull` | ext/audio/sid.c:1294-1321 | chunks get all their samples, unless some call of the play routine asks for a negative number of them |
| `SidPlayer.RefreshIs` | ext/audio/sid.c:1302-1304 | the period between two calls is that of the timer, of which 0x4c00 is a fiftieth of a second, or a fiftieth of a second |
| `SidPlayer.SamplesPerCallIff` | ext/audio/sid.c:1300-1307 | the number of samples per call is negative if and only if the int product overflows: for the timer values from 0xb90c on, unless the song has the fixed speed |
| `SidPlayer.SlowTimerIsLost` | ext/audio/sid.c:1300-1307 | with the timer at 0xffff the number is -1324 |
| `SidPlayer.SongIsChunkFree` | ext/audio/sid.c:1294-1321 | for the synthesizer with the timer of the song: the stream does not depend on the chunk size, and is lost exactly if some call of it leaves such a timer |
| `SidPlayer.ChunkEndsIff` | ext/audio/sid.c:1294-1321 | a chunk is completed, or lost, if and only if the player without chunks gets that far |
| `SidCpu.AddBytesAdds` | ext/audio/sid.c:852-859 | n additions with carry add n-byte numbers modulo 256^n with the carry out: the sum with the carry is exact and the result is below 256^n |
| `SidCpu.SubtractBytes` | ext/audio/sid.c:1073-1081 | with complemented bytes they subtract, a clear carry being a borrow |
| `SidCpu.StepAdds` | ext/audio/sid.c:852-1081 | ADC and SBC in any addressing mode are such additions |
| `SidCpu.StepKeepsCarry` | ext/audio/sid.c:844-1129 | which instructions leave the carry alone |
| `SidCpu.StepCalls` | ext/audio/sid.c:994-1000 | JSR with two bytes of stack leaves its return address there and no older one changed |
| `SidCpu.StepReturns` | ext/audio/sid.c:1066-1072 | RTS and RTI go where the stack says |
| `SidCpu.StepInRange` | ext/audio/sid.c:844-1129 | no instruction takes the synthesizer out of its ranges |
| `SidOps.StepBranches` | ext/audio/sid.c:816-897 | each of the eight branches goes to the address behind it plus its signed offset if and only if its bit of the status byte has its value, and changes nothing else |
| `SidOps.ReadIs` | ext/audio/sid.c:654-704 | operands and effective addresses of all modes as arithmetic on the bytes of the instruction, and where the next instruction is |
| `SidOps.StepLoads` | ext/audio/sid.c:1001-1015 | loads change one register and the two flags that show it |
| `SidOps.StepCombines` | ext/audio/sid.c:860-1031 | AND, ORA and EOR combine the accumulator with the operand bit by bit |
| `SidOps.StepTests` | ext/audio/sid.c:898-903 | BIT shows two bits of the operand, and whether it has one in common with the accumulator |
| `SidOps.StepCompares` | ext/audio/sid.c:919-939 | comparisons set carry, zero and sign flag by the difference, and nothing else |
| `SidOps.StepSums` | ext/audio/sid.c:852-1081 | ADC and SBC give the sum with its ninth bit in the carry, and the overflow flag of the code |
| `SidOps.WriteIs` | ext/audio/sid.c:552-604 | a write changes one register of the chip or one cell of memory |
| `SidOps.StepStores` | ext/audio/sid.c:739-794 | stores write where their mode says and change nothing else |
| `SidOps.StepChanges` | ext/audio/sid.c:707-1065 | INC, DEC, shifts and rotations as equations between the old byte, the new one and the carries; they write back where they read |
| `SidOps.StepCounts` | ext/audio/sid.c:947-979 | counting adds or takes away one modulo 256 |
| `SidOps.StepMoves` | ext/audio/sid.c:1100-1127 | moves between registers, the one to the stack pointer without flags |
| `SidOps.StepFlags` | ext/audio/sid.c:907-1090 | flag instructions set or clear one bit of the status byte |
| `SidOps.StepPushes` | ext/audio/sid.c:804-1037 | pushes write the cell of the stack pointer and move it |
| `SidOps.StepPulls` | ext/audio/sid.c:810-1045 | pulls move the pointer and read the cell it then names, for the status byte bit by bit |
| `SidOps.StepCallsTo` | ext/audio/sid.c:994-1000 | JSR leaves the address of its last byte on the stack, changes nothing else, and goes to its operand as it is then |
| `SidOps.StepReturnsTo` | ext/audio/sid.c:1066-1072 | RTS and RTI go behind the address in the two cells above the stack pointer, and change nothing else |
| `SidOps.StepJumps` | ext/audio/sid.c:904-993 | JMP goes to its operand or to the address stored there, BRK to zero |
| `SidLoops.LoopCounts` | ext/audio/sid.c:880-951 | a DEX with a BNE back to it is run through as often as the register says, which then is zero, and for zero 256 times |
| `SidRuns.ChainAdds` | ext/audio/sid.c:852-1081 | over any run whose other instructions leave the carry alone the additions together add numbers of n bytes modulo 256^n |
| `SidRuns.CallComesBack` | ext/audio/sid.c:994-1072 | in a properly nested run a call is followed by the instruction behind it, with the stack pointer restored |
| `SidRuns.ReturnsToCaller` | ext/audio/sid.c:1066-1072 | every return goes behind the innermost open call |
| `SidRuns.RunInRange` | ext/audio/sid.c:844-1146 | no program takes the synthesizer out of its ranges |
| `SidRuns.PlayedInRange` | ext/audio/sid.c:270-652 | over any run of register writes, instructions and renderings every envelope and counter stays in its range |
| `SidRuns.PlayedFits` | ext/audio/sid.c:270-534 | after any such run, while the volume register leaves the filter outputs off, each sample put out is the one computed and fits 16 bits |
| `SidSong.EnteredIs` | ext/audio/sid.c:1132-1143 | cpuJSR starts with clear registers but the accumulator, and with the return address on the stack that ends the routine |
| `SidSong.StreamIsChunkFree` | ext/audio/sid.c:1292-1321 | the stream of a song whose play routine the processor executes: where its calls end, each event is a run of the processor or a sample of the same machine, whatever CHUNK_SIZE is, and all samples are there unless a call leaves a timer for which the product is no int |
| `SidSong.SongInRange` | ext/audio/sid.c:1292-1321 | along the whole stream the synthesizer stays in its ranges |
| `SidSong.SongFits` | ext/audio/sid.c:1292-1321 | along the whole stream each sample is put out as computed and fits 16 bits, while the volume register leaves the filter outputs off |
| `SidProgram.SynthFile.SetMemory` | ext/audio/sid.c:552-604 | writes over the arrays are the model's |
| `SidProgram.SynthFile.PokeChannel` | ext/audio/sid.c:560-599 | the switch over the registers of the sample channel sets the value that is named and no other one, and takes all of them over for the trigger |
| `SidProgram.SynthFile.SidPoke` | ext/audio/sid.c:609-652 | the range tests and the switch set the named register, keep every other one, and do to the envelope what PokeIs says |
| `SidProgram.SynthFile.Prepare` | ext/audio/sid.c:353-383 | the set-up loop is the model's |
| `SidProgram.SynthFile.Oscillate` | ext/audio/sid.c:394-507 | the loop over the voices gives the oscillators and both mixes of the model |
| `SidProgram.SynthFile.SynthRender` | ext/audio/sid.c:346-540 | the buffer holds the samples of the model and nothing else of it is touched |
| `SidProgram.FillChunk` | ext/audio/sid.c:1292-1321 | the chunk loop is the model's, and stops where the number of samples is negative |
| `SidProgram.CpuJsr` | ext/audio/sid.c:1132-1146 | cpuJSR runs until the program counter is at most 1 |
| `SidProgram.LastReturnEnds` | ext/audio/sid.c:1140-1144 | the return that finds the two zeros ends the routine |
| `TaskPool.InvKept` | src/task.c:47-110 | every step of a worker or caller keeps the invariant |
| `TaskPool.PoolIsSafe` | src/task.c:26-110 | in every interleaving at most 16 threads and 2 idle ones, tasks in submission order once each, and a non-empty queue has a worker that is not blocked |
| `TaskPool.QuietIsDrained` | src/task.c:53-75 | when no worker can move the queue is empty, every task has been taken and at most 2 threads are left |
| `TaskPool.PoolDrains` | src/task.c:53-75 | without new tasks the workers come to rest after a number of steps known in advance, with all tasks taken and two workers left asleep, or all if they were fewer |
| `TaskPool.SubmitWakesIff` | src/task.c:97-108 | a submission adds an awake worker if and only if a worker sleeps that nobody has signalled, or none is idle and fewer than 16 exist |
| `TaskPool.BacklogIsAbsorbed` | src/task.c:47-110 | after every run the waiting tasks outnumber the awake workers by no more than the submissions that woke nobody |
| `TaskPool.SignalAbsorbed` | src/task.c:102-108 | a run from the empty pool in which a submission wakes nobody although fifteen more workers are allowed |
| `TaskPool.TaskPool.TaskRun` | src/task.c:93-110 | submission appends the task and wakes or starts a worker |
| `TaskPool.TaskPool.ThreadTurn` | src/task.c:52-75 | a worker's turn is the model's, and it takes the oldest task |
| `BsFormat.SignAndMagnitude` | ext/bspatch/bspatch.c:42-58 | what offtin reads has the top bit of the eighth byte for its sign and the other 63 bits for its magnitude |
| `BsFormat.OfftinOfOfftout` | ext/bspatch/bspatch.c:42-58 | offtin inverts the sign-magnitude little-endian encoding |
| `BsFormat.OfftoutOfOfftin` | ext/bspatch/bspatch.c:42-58 | and every 8 bytes but those of minus zero are the encoding of what offtin reads |
| `BsFormat.AssembledIff` | ext/bspatch/bspatch.c:75-87 | the reference gives a file if and only if the streams start with its description, part by part: x bytes of the old file added to diff bytes, y extra bytes, z bytes further in the old file |
| `BsBytes.DescribedBytes` | ext/bspatch/bspatch.c:75-87 | the parts of a described file make up all of it; byte by byte, each is sums of diff bytes with the old file at the sum of all x and z before, and then bytes of the extra block |
| `BsApply.ReadTestIff` | ext/bspatch/bspatch.c:147-150 | the test after a read means that the bytes were delivered, except exactly for a negative length that loses its sign in the int of the decompressor |
| `BsApply.LostSignGoesBack` | ext/bspatch/bspatch.c:158 | such a length is below -2^31 and takes the position to before the buffer, unless more than 2^31 bytes have been written |
| `BsApply.TameStaysInside` | ext/bspatch/bspatch.c:131-174 | where the decoded lengths are tame the loop ends with a buffer or with NULL, and no byte goes to a place outside of the buffer |
| `BsApply.StaysInsideIff` | ext/bspatch/bspatch.c:131-174 | for all old files, buffers and contents no byte goes to a place outside of the buffer if and only if the lengths are tame: the path of the position, also past a lost sign, has no read of one byte or more that leaves the buffer |
| `BsApply.PatchSucceedsIff` | ext/bspatch/bspatch.c:131-174 | the streams describe a file of the promised size if and only if the lengths are honest and the loop gives that file |
| `BsApply.TamePatchIff` | ext/bspatch/bspatch.c:131-174 | up to 2^31 bytes and with tame lengths the loop gives exactly the file that the streams describe, and NULL where they describe none |
| `BsApply.HonestIsTame` | ext/bspatch/bspatch.c:142-165 | lengths that are not negative before the file is complete, or too large for it, never lead outside of a buffer of that size |
| `BsApply.LengthLosesSign` | ext/bspatch/bspatch.c:142-174 | a length of 5 - 2^32 passes the test as a read of 5 bytes; without a byte after it NULL is returned and nothing else happens, with one that byte goes to a place before the buffer |
| `BsApply.GarbageIsGiven` | ext/bspatch/bspatch.c:142-174 | two lengths that take the position once around all 64-bit numbers make bspatch return its buffer as malloc gave it, but for one byte |
| `BsFile.PatchRebuilds` | ext/bspatch/bspatch.c:131-174 | for any segmentation of the new file the encoded streams rebuild it |
| `BsFile.HeaderTestIff` | ext/bspatch/bspatch.c:104-108 | the header test lets in blocks that end outside of the patch if and only if the sum of their lengths is no off_t |
| `BsFile.PatchStarts` | ext/bspatch/bspatch.c:76-137 | what the header alone decides: failure, the empty file, a block outside of the patch, or the loop over the three blocks it marks off |
| `BsFile.PatchFileRoundTrip` | ext/bspatch/bspatch.c:61-185 | a whole patch file gives back the new file, given that decompression inverts compression |
| `BsProgram.ReadOfft` | ext/bspatch/bspatch.c:42-58 | the loop over the bytes is offtin |
| `BsProgram.BzFile.Read` | ext/bspatch/bspatch.c:147 | a read delivers its bytes one by one into the buffer, and stops exactly where one would go to a place outside of it |
| `BsProgram.AddOldBytes` | ext/bspatch/bspatch.c:152-155 | old bytes are added where there are any, and nothing else is touched |
| `BsProgram.ReadPart` | ext/bspatch/bspatch.c:142-150 | the test of the wrapped position, the read and the test of its result are the model's, for every length |
| `BsProgram.OnePart` | ext/bspatch/bspatch.c:142-173 | one triple does to position, buffer and streams what the model says, lost signs included |
| `BsProgram.ApplyLoop` | ext/bspatch/bspatch.c:131-174 | the loop ends as the model does: with its buffer, in failure, or before a byte goes to a place outside of the buffer |
| `BsProgram.BsPatch` | ext/bspatch/bspatch.c:61-185 | the whole function ends as the model does, every failure included |
| `ConfigRewrite.MarkersApart` | src/upgrade.c:234-259 | two different markers never overlap |
| `ConfigRewrite.RegionShape` | src/upgrade.c:268-270 | the three segments contain no marker but those at their starts |
| `ConfigRewrite.SplicedMarkers` | src/upgrade.c:276-282 | no splice boundary creates an earlier match |
| `ConfigRewrite.RewriteReplacesRegion` | src/upgrade.c:234-287 | exactly the text between the first markers is replaced, and it is the downloaded region |
| `ConfigRewrite.RewriteElseIsDownload` | src/upgrade.c:237-257 | without a proper region in both files the download is taken as it is |
| `ConfigRewrite.LastRewriteWins` | src/upgrade.c:234-287 | of two rewrites the second determines the region |
| `ConfigRewrite.RewriteIsIdempotent` | src/upgrade.c:234-287 | rewriting with the same download again changes nothing |
| `ConfigRewrite.ShowtimeIsProper` | src/upgrade.c:234-244 | the markers in use have one # each, at the start, and neither is a prefix of the other |
| `ConfigRewrite.FindStr` | src/misc/str.c:1626-1644 | find_str returns the first match |
| `ConfigRewrite.PatchedConfigFile` | src/upgrade.c:196-292 | the buffer it returns is the model's |
| `ConfigRewrite.RewriteDownload` | src/upgrade.c:472-484 | the caller's marker test and the rewrite together are the model's |
| `ServiceProbe.InvKept` | src/service.c:154-509 | every step of users and prober keeps references and published status right |
| `ServiceProbe.StatusIsCurrent` | src/service.c:437-509 | the status of a live service that is neither marked nor being probed comes from its current URL |
| `ServiceProbe.RunWishes` | src/service.c:154-509 | after every run the list, newest first, the URLs and the marks for probing are as the callers set them last, whatever the prober did in between |
| `ServiceProbe.StatusIsAnswer` | src/service.c:437-509 | in every interleaving a listed service that wants probing and is neither marked nor being probed shows what the backend answers for the URL it was given last, and a failure for none |
| `ServiceProbe.TakesFirstMarked` | src/service.c:473-499 | the prober takes up the first marked service of the list and asks about the URL it has then |
| `ServiceProbe.NoUseAfterFree` | src/service.c:182-183 | no step touches a freed service, and each is freed once |
| `ServiceProbe.DestroyedStaysSilent` | src/service.c:500-508 | nothing is published for a destroyed service |
| `ServiceProbe.ProbeWorkShrinks` | src/service.c:471-509 | each step of the prober leaves it less to do |
| `ServiceProbe.ProberCatchesUp` | src/service.c:471-509 | left alone, the prober brings every status up to date |
| `ServiceProbe.AwakeProberCanMove` | src/service.c:471-509 | the prober only stops in its wait |
| `ServiceProbe.ServiceList.ServiceCreate0` | src/service.c:263-267 | the program's step is the model's |
| `ServiceProbe.ServiceList.ServiceSetUrl` | src/service.c:437-445 | the program's step is the model's |
| `ServiceProbe.ServiceList.ServiceDestroy` | src/service.c:180-184 | the program's step is the model's |
| `ServiceProbe.ServiceList.ProbeScan` | src/service.c:473-499 | the program's step is the model's |
| `ServiceProbe.ServiceList.ProbeFinish` | src/service.c:500-508 | the program's step is the model's |

## Left out

- Arena pool: `JS_ARENA_DESTROY`, the metering counters and the debug fill patterns.
- Arena pool: growth of blocks older than a live mark, which the code asks its callers not to do.
- Arena pool: a size for which `size + incr`, or its multiple of the alignment, is no word; AlignWrapsIff says what rounding up makes of it.
- ArenaRuns.PoolIsSafe: is about growths that fit into a word with their header, because the others leave their chunk: BlockLeavesChunk.
- ArenaProgram.JSArenaPool.ArenaRealloc: where the size does not fit into a word, the new base is assumed not to be that of another arena.
- Blob cache: disk write failures, the reads of a file after `blobcache_get` has let go of the lock, the size limit computed from the file system (a parameter), `index_dirty` and the timed waits.
- Blob cache: `current_cache_size` does not wrap at 2^64, and the loader stops where a record runs past the end of the file.
- Blob cache: the loops of the writing thread are steps; open, content type and data are written separately.
- BlobCache.PutRefines: the content type of a put with data that is already there is that of the earlier put, as in the code.
- Play queue: whether a jump also pauses, the property tree, the media pipe, `playqueue_load_with_source` beyond its jump and its clear, `update_pq_meta` except for the search it runs, and the use of a current entry that is no longer linked in `playqueue_enqueue`.
- PlayProgram.Playqueue.PlayqueueEnqueue: asks for a current entry that is linked, because the code inserts behind it through its list links.
- Play queue: entries are values in a map that the methods reassign, so aliasing of list links is not modelled.
- SID player: overflow of the filter's int state, the float computation of the tables, file parsing, `cpuReset`, and the contents of the two tables of operation codes.
- SID player: play routines that do not return, or that start the sample channel with a period of 0, which divides by zero.
- SID player: the processor is modelled on values; the classes have the loops of the synthesizer, of the chunks and of `cpuJSR`.
- Task pool: thread creation that fails, and the functions that tasks run.
- Binary patching: what follows after a byte has gone to a place outside of the buffer, or in a block that is not within the patch; a malloc that fails; and whether bzip2 reports the end of a stream with its last byte or with the read after it.
- BsApply.TamePatchIff: is about files of at most 2^31 bytes, because beyond them a length that has lost its sign can come back inside the buffer.
- BsApply.HonestIsTame: the same.
- ConfigRewrite: reading the installed file is an input that may be absent; the SHA-1 test before it is not modelled.
- Service prober: properties, settings and the status text; URL normalisation is part of the URL that is set.
