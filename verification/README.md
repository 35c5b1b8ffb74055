# GravelDB, modelled and proved

GravelDB stores embeddings in one bin per dimension. A put goes through an index, a key buffer and a
page write buffer; a checkpoint freezes the data files, dumps the dirty pages as a delta in bounded
steps while writes go to an overlay, and then replays the overlay. This project models that core and
proves what the layers are for: that the store is a map, that a checkpoint sees a frozen image, that
the chain of deltas rebuilds every such image, and that the hand-written index structures are the
maps and sets they stand for.

The model has two levels. Values and functions (`Pages`, `PageCaches`, `Bins`, `Stores`,
`Deletions`, `Checkpoints`, `DeltaChains`, `Directories`, `Reopening`) give every operation as a
function of the whole state, and the theorems (`Puts`, `PutOutcomes`, `PutStatuses`, `Runs`,
`DeltaRuns`, `LostPages`) are about single operations and all runs of them. Classes and loops
(`HashIndexes`, `KeyArenas`, `KeyStores`, `DirtyTrackers`, `DimRegistries`, `FlushRuns`, `DimBins`,
`GravelDBs`, `BatchGets`, `Exports`, `DeltaFiles`, `Recovery`, `StableSort`) follow the source's
in-place code and are proved to compute those functions.

The top of the project, in reading order:

- `Runs.RunIsExact`: over every interleaving of puts, deletes, flushes, incremental checkpoint steps
  and blocking checkpoints, a reader sees what the puts and deletes alone leave in a map, except for
  the entries the run loses, which are named exactly, and for puts that fail, whose outcome is named
  exactly too (`PutOutcomes.BatchIsOutcome`); `PutStatuses.BatchPutStatus` says which status a put
  returns. `Runs.StoreIsAMap` is the case without losses, and `Runs.OpHasMeaning` says for one
  operation when there are none.
- `Checkpoints.DeltasRebuildImages` and `Checkpoints.SnapshotHolds`: the delta chain and snapshot
  isolation, over every run. `DeltaRuns.IncrementalIsBlocking`: the incremental checkpoint writes what
  the blocking one would have written. `Recovery.RecoverAfterRun`: after any run, cut short at any
  moment, the bytes in a bin's directory, listed in any order, rebuild the image of its last completed
  checkpoint, also when a delta is half written.
- `Runs.RunOwnsSlots` and `Runs.ReopenAfterRun`: slot ownership, and what closing and opening brings
  back.
- `KeyTrees.ThreeNodesSuffice`, `KeyArenas.KeyBTree.Insert`: the arena B-tree is a finite map and a
  split never fails.
- `HashIndexes.HashIndex`: the open-addressing index, with the exact condition under which a lookup
  fails in the middle of a rehash.

## What the code does, where a reader might expect otherwise

- A page that is only partly below the bump pointer is not loaded before it is written
  (src/dimbin.c:478-489). If it was flushed, the next write to it zeroes its other entries. Opening
  an empty store, putting one feature, flushing and putting another loses the first exactly when a
  page holds three entries or more (`LostPages.LastPageIsLost`). `UnnamedAfterBatch` and
  `BatchPutExact` say exactly which entries survive a batch, `EntryAfterEnd` and `EndReads` which
  survive the end of a checkpoint. On full pages, and while the pages in question are buffered and
  fit, nothing is lost (`FullPagesAreSafe`, `BufferedIsSafe`).
- While the index rehashes, migrated slots are cleared in place, and removals leave holes, so a probe
  of the old table stops at them. `MissedIff` tells, from the state before a call, which entries the
  call misses; `LookupFailsDuringGrow` puts keys into an empty index until a lookup fails for one of
  them. The index is never full once it has four slots; with one or two it can be, and the probe of a
  put still ends (`NeverFull`).
- An open registers the dims its configuration lists and scans no other files (src/graveldb.c:256-279).
  What comes back are the features of those dims: all of them exactly when every dim that has a
  feature is listed (`ReopenAfterRun`). A store opened with no dims that creates them on the fly, the
  dynamic mode of include/graveldb.h:56-58, is empty when it is opened that way again
  (`LostPages.UnlistedIsGone`).
- A put that returns BUSY has already indexed its new features (src/graveldb.c:742-749). One whose
  embedding was refused reads whatever its slot held before (`GroupIsOutcome`).
- The comment on `compute_depth` (src/dirty_tracker.c:92) says 4096 has depth 2. The code returns 1:
  the depth `d` satisfies 64^(d+1) = span (`ComputeDepth`).
- Linear and page addressing agree on every file exactly when a page holds nothing but its entries
  (`LayoutsAgree`). Export uses linear addressing throughout. A batched read uses it for a page that
  holds a single entry, but only when one request alone asks for the feature (`Delivered`).
- `align_up` masks; it rounds to a multiple for powers of two only (`AlignUpRounds`).
- An exported id whose low 32 bits are the trailer magic ends the parse early (`ParseOfDump`,
  `ParseIsComplete`). The header's entry count is never filled in; the trailer carries it.

## Conditions

Reads, writes and allocations succeed. The configuration is one whose write buffers hold at most
65536 pages (`ConfigOk`), and page numbers stay below 2^27, the reach of the dirty tracker's 16-bit
segment array. A checkpoint of a bin dumps at most 2^20 pages. Index capacities stay below 2^29, so no
counter wraps. The registry holds fewer than 24576 dims, all positive. An embedding has exactly the
bin's entry size. A dim that is put or listed and is not registered has no files yet (`FreshDims`,
`Fitting`), and no dim is listed twice. Every open uses the alignment and page size the files were
written with; a page size of 0 stands for 4096, which the code gives to bins made at open, while bins
made on the fly get the size detected for the device (src/graveldb.c:174, 226-228, 265). An open finds
no delta file newer than the generation it restores (`Settled`). A blocking checkpoint is not started
while an incremental one runs. Inside the bins and the store the hash index and the overlay are finite
maps; hash functions are arbitrary.

## Model

| member | source | states |
|---|---|---|
| `Pages.InitGeometry` | src/dimbin.c:82-89 | an entry is the 4-byte floats of its vector and less than one alignment more, aligned when the alignment is a power of two; a page is the size asked for, or one entry if that is larger; it holds as many entries as there is room for |
| `Pages.AlignUp` | src/dimbin.c:64-67 | adding and masking gives nothing smaller, and less than one alignment more |
| `Pages.AlignUpRounds` | src/dimbin.c:64-67 | for powers of two the result is a multiple of the alignment |
| `Pages.SetEntryReads` | src/dimbin.c:560-564 | a slot write is read back and no other slot of the page notices it |
| `Pages.LinearIsPaged` | src/graveldb.c:545-549 | without slack in a page, the linear offset reads the same entry as page and slot |
| `Pages.LayoutsAgree` | src/checkpoint.c:1036-1041 | linear and page addressing agree on all files and entries if and only if page size = entries per page × entry size |
| `Pages.SlackSeparates` | src/graveldb.c:541-551 | with slack, one file tells the two addressings apart |
| `StableSort.InsertionSort` | src/dimbin.c:525-536 | the in-place insertion sort computes `Sort` |
| `StableSort.SortFacts` | src/dimbin.c:525-536 | sorting permutes and sorts |
| `StableSort.SortStable` | src/graveldb.c:678-689 | for every key, the elements with that key keep their order |
| `PageCaches.FlushKeeps` | src/dimbin.c:612-808 | moving every buffered page to the file changes no page and no entry as read |
| `PageCaches.EnsurePageSeen` | src/dimbin.c:447-496 | buffering a page changes no page as read, except to zero the page itself when it is neither buffered nor reloaded |
| `PageCaches.PutOneReads` | src/dimbin.c:447-496 | one write changes the entry named, and zeroes the rest of its page exactly when the page is neither buffered nor reloaded |
| `PageCaches.PutAllProgress` | src/dimbin.c:541-580 | what a page-ordered batch leaves buffered, and when it has flushed on the way |
| `PageCaches.PutAllReads` | src/dimbin.c:541-580 | exact effect of a batch already in page order on every entry |
| `PageCaches.PutSortedReads` | src/dimbin.c:501-589 | exact effect of a batch on every entry: last data given if named, unchanged if its page is kept, zero otherwise; `Bins.UnnamedAfterBatch` says it without "kept" |
| `PageCaches.SortKeepsLast` | src/dimbin.c:525-536 | sorting by page keeps the last write to every entry |
| `PageCaches.GroupWrites` | src/dimbin.c:556-565 | loading a page once and copying all its entries equals writing them one by one |
| `Bins.PutBatchReads` | src/dimbin.c:501-589 | what a batch does to every read, in and out of a checkpoint, and when it returns BUSY: exactly the writes before the budget ran out are visible |
| `Bins.UnnamedAfterBatch` | src/dimbin.c:447-496 | an entry a batch does not name is unchanged on a page not written to and on a page that lies wholly below the bump pointer and begins inside the data file; on any other page written to it reads as zeros if the page was not buffered, and is unchanged if it was and the buffer has room for all the batch writes to |
| `Bins.AcceptedExact` | src/dimbin.c:504-515 | the overlay takes exactly the writes before the first one that finds 16 bytes and one vector for every entry to be its budget or more |
| `Bins.FlushBinKeeps` | src/dimbin.c:612-808 | a flush changes no read, in or out of a checkpoint |
| `Bins.BeginReads` | src/dimbin.c:875-887 | beginning a checkpoint changes no read |
| `Bins.ReplayReads` | src/dimbin.c:916-924 | exact effect of the chunked replay on every entry, for any storage order: kept if it lasts, zero if not |
| `Bins.ReplayReloads` | src/dimbin.c:916-924 | an entry on a page that is reloaded or not touched lasts through the chunked replay |
| `Bins.ReplayZeroes` | src/dimbin.c:916-924 | an entry not replayed, on a page replayed into that is neither reloaded nor buffered, is lost |
| `Bins.ReplayFlushless` | src/dimbin.c:916-924 | while the touched pages fit into the buffer everything replayed or buffered lasts |
| `Bins.EndReads` | src/dimbin.c:889-955 | exact effect of ending a checkpoint on every read, for any storage order of the overlay; an entry not written during it is lost if and only if its page is replayed into and not reloaded; one written during it lasts when the page is reloaded or the touched pages fit |
| `Bins.EntryAfterEnd` | src/dimbin.c:889-955 | in plain terms: an entry not written during the checkpoint is unchanged if its page lies wholly below the bump pointer and begins inside the data file, or if nothing was written to the page, and zeros otherwise; one that was written is unchanged on such a page, and on any page when all that was written fits into the buffer |
| `Bins.EndFrame` | src/dimbin.c:889-955 | the rest of the state after ending: touched pages active, tombstoned slots free with key 0, all other keys as before |
| `Bins.AllocSizes` | src/dimbin.c:253-287 | the tracked sizes stay large enough for every slot below the bump pointer |
| `Bins.ReserveSizes` | src/dimbin.c:231-251 | so they do after a reservation |
| `Bins.GrownExact` | src/dimbin.c:231-251 | a file too short is doubled, from its size or its initial size, just often enough |
| `Bins.FreedFirst` | src/dimbin.c:253-256 | the slot freed last is handed out first; with none free, the next slot never used |
| `Bins.RoomForSlots` | src/dimbin.c:124-128 | the bump pointer derived at open is the largest both files have room for |
| `FlushRuns.WriteChunk` | src/dimbin.c:686-744 | a vectored write of consecutive pages puts each page in its own place |
| `FlushRuns.WriteSubRun` | src/dimbin.c:683-767 | 1024-page chunks of a consecutive sub-run write exactly its pages |
| `FlushRuns.WriteGapRun` | src/dimbin.c:675-770 | sub-runs and chunks of a gap-tolerant run write exactly its pages |
| `FlushRuns.WriteBuffered` | src/dimbin.c:653-776 | the whole loop nest leaves the file overlaid by the buffer |
| `FlushRuns.SortedPages` | src/dimbin.c:624-637 | the buffered pages, strictly ascending |
| `DimBins.DimBin.constructor` | src/dimbin.c:74-193 | a bin over existing files: bump pointer, empty buffers, keys as in the key file |
| `DimBins.DimBin.Flush` | src/dimbin.c:612-865 | refines `Bins.FlushBin`; afterwards nothing is buffered, keys included |
| `DimBins.DimBin.EnsurePage` | src/dimbin.c:447-496 | refines `PageCaches.EnsurePage` |
| `DimBins.DimBin.PutPage` | src/dimbin.c:541-580 | one page group writes all its entries and marks the page |
| `DimBins.DimBin.PutBatch` | src/dimbin.c:501-589 | refines `Bins.PutBatch`, status included, both in and out of a checkpoint |
| `DimBins.DimBin.PutOverlay` | src/dimbin.c:504-515 | the branch inside a checkpoint refines `Bins.PutBatch`, BUSY included |
| `DimBins.FillOverlay` | src/dimbin.c:506-512 | the loop accepts exactly the writes before the budget runs out |
| `DimBins.DimBin.LoadPage` | src/dimbin.c:475-489 | a new buffered page holds the file page if it is reloaded, zeros otherwise; which it is, `Bins.UnnamedAfterBatch` says |
| `DimBins.DimBin.Reserve` | src/dimbin.c:231-251 | refines `Bins.Reserve`: both files grow by doubling |
| `DimBins.DimBin.AllocEntry` | src/dimbin.c:253-287 | refines `Bins.Alloc`: last freed slot first, else the bump pointer |
| `DimBins.DimBin.BufKey` | src/dimbin.c:306-315 | the key view changes at the one slot |
| `DimBins.DimBin.FreeEntry` | src/dimbin.c:430-442 | the slot joins the free list and its key becomes 0 |
| `DimBins.DimBin.Begin` | src/dimbin.c:875-887 | refines `Bins.Begin` |
| `DimBins.DimBin.ScanFrozen` | src/graveldb.c:1369-1369 | the tracker lists the frozen pages, ascending; its capacity cuts none of them off |
| `DimBins.DimBin.End` | src/dimbin.c:889-955 | refines `Bins.End`: chunked replay, then the tombstoned slots are freed |
| `DimBins.DimBin.ReplayChunks` | src/dimbin.c:916-924 | refines the chunked replay |
| `DimBins.DimBin.FreeEntries` | src/dimbin.c:948-950 | refines `Bins.FreeAll` |
| `DimBins.DimBin.Tombstone` | src/overlay.c:309-318 | refines `Bins.Tombstone`: the slot joins the tombstone list |
| `Stores.SlotHasOneOwner` | src/dimbin.c:253-287 | under the invariant a slot below the bump pointer is indexed by one feature, or free once, or tombstoned once |
| `Stores.AllocOwns` | src/graveldb.c:742-749 | giving a new feature a slot keeps ownership |
| `Stores.PutKeyOwns` | src/graveldb.c:721-762 | whatever branch one request takes, ownership stays |
| `Stores.PutKeysFacts` | src/graveldb.c:721-762 | after the key loop every applied request has its slot in the bin, and the deferred writes name those slots in request order |
| `Stores.CreateBinKeeps` | src/graveldb.c:160-191 | a new bin keeps the invariant |
| `Stores.FewPages` | src/graveldb.c:160-174 | no bin's share of the write buffer is more than one flush can write |
| `Stores.PutGroupFacts` | src/graveldb.c:721-787 | a dim group keeps the invariant, touches one bin, and on success every feature in it reads back |
| `Stores.PutGroupExact` | src/graveldb.c:721-787 | a feature of the bin that the group does not name reads as before if its page is untouched, reloaded, or buffered until the batch reaches it, or the bin is in a checkpoint, and as zeros otherwise |
| `Stores.PutKeysAlike` | src/graveldb.c:721-762 | the key loop depends only on its bin and on where the features asked for are |
| `Stores.PutGroupsFacts` | src/graveldb.c:693-790 | the group loop keeps the invariant, touches only bins of the dims named, moves no feature |
| `Stores.SortKeepsLastEmb` | src/graveldb.c:678-689 | sorting by dim keeps the last embedding given for a feature |
| `Stores.BatchPutReadsBack` | src/graveldb.c:665-794 | read your writes: on success every feature is in the bin of its dim and reads the last embedding given for it in batch order |
| `Deletions.DeleteOneOwns` | src/graveldb.c:801-819 | a delete, in or out of a checkpoint, keeps ownership |
| `Deletions.BatchDeleteFacts` | src/graveldb.c:796-822 | the features named are gone, all others keep place and embedding |
| `Deletions.DeletedSlots` | src/graveldb.c:801-819 | the slot of every feature named is free with key 0, or, if its bin is in a checkpoint, tombstoned with its key and not free |
| `KeyTrees.SplitKeepsItems` | src/key_btree.h:92-122 | splitting a full child keeps the in-order items |
| `KeyTrees.SplitShape` | src/key_btree.h:92-122 | splitting keeps height and fill, and both halves have 63 keys |
| `KeyTrees.InsertShape` | src/key_btree.h:128-181 | insertion into a node that is not full keeps height and fill |
| `KeyTrees.InsertItems` | src/key_btree.h:128-181 | and puts the pair into the ordered items |
| `KeyTrees.InsertRootCorrect` | src/key_btree.h:183-206 | insert keeps shape and fill, and puts the pair into the ordered items, also when the key is at an inner node or is the promoted median |
| `KeyTrees.PutIsMapUpdate` | src/key_btree.h:128-181 | that is a map update, and "new" means the key was absent |
| `KeyTrees.FullTreeIsBig` | src/key_btree.h:49-73 | a tree of height h whose nodes are all at least half full has at least 64^h nodes |
| `KeyTrees.TallIsBig` | src/key_btree.h:49-73 | a tree of height 3 with a full root, or of height 4, has at least 8192 nodes |
| `KeyTrees.ThreeNodesSuffice` | src/key_btree.h:61-64 | below 8192 nodes an insert takes at most three |
| `KeyArenas.ArenaCap` | src/key_btree.h:49-59 | within the 16 MB budget the arena has at most 6553 nodes |
| `KeyArenas.KeyBudget` | src/dimbin.c:167-172 | the budget is between its floor and 16 MB |
| `KeyArenas.FindKey` | src/key_btree.h:158-169 | binary search finds where the key is or belongs |
| `KeyArenas.KeyBTree.constructor` | src/key_btree.h:49-59 | an empty map with room |
| `KeyArenas.KeyBTree.Clear` | src/key_btree.h:85-89 | an empty map with room again |
| `KeyArenas.KeyBTree.AllocNode` | src/key_btree.h:66-73 | the next node, or none when the arena is used up |
| `KeyArenas.KeyBTree.Split` | src/key_btree.h:92-122 | the node edits store the split tree and write nothing else that is reachable |
| `KeyArenas.KeyBTree.InsertNonfull` | src/key_btree.h:128-181 | the descent with splits on the way refines the tree insert |
| `KeyArenas.KeyBTree.Insert` | src/key_btree.h:183-206 | insert is map update on an arena that is not nearly full; no split fails |
| `KeyArenas.KeyBTree.Collect` | src/key_btree.h:230-244 | the map's entries, strictly ascending, `count` of them |
| `KeyArenas.KeyBTree.CollectNode` | src/key_btree.h:230-240 | the recursive walk appends the in-order items |
| `KeyStores.FlushKeyPage` | src/dimbin.c:349-383 | the read-modify-write of a dense page and the single writes of a sparse one leave the same file |
| `KeyStores.RunFits` | src/dimbin.c:403-422 | a page's keys never exceed the 512-slot arrays |
| `KeyStores.WriteEach` | src/dimbin.c:375-381 | single writes apply the entries one by one |
| `KeyStores.PutKeysBatch` | src/dimbin.c:385-428 | the one-pass page coalescing equals writing the keys one by one |
| `KeyStores.KeyStore.FlushKeys` | src/dimbin.c:321-337 | the file overlaid by the tree is unchanged, slot by slot, and the tree is empty |
| `KeyStores.KeyStore.BufKey` | src/dimbin.c:306-315 | the view changes at one slot, flush or no flush |
| `KeyStores.KeyStore.constructor` | src/dimbin.c:164-172 | the view is the key file |
| `KeyStores.KeyStore.Extend` | src/dimbin.c:272-280 | growing the key file changes no key |
| `Probing.FirstEmpty` | src/hash_index.c:25-28 | the unguarded probe ends at the first empty slot whenever there is one |
| `Probing.FindSlot` | src/hash_index.c:152-162 | the guarded probe finds the first slot of the key, or proves a well placed table does not hold it |
| `Probing.InsertIntoTable` | src/hash_index.c:22-32 | insertion keeps the table well placed and adds one entry |
| `Probing.InsertKeepsPlaced` | src/hash_index.c:22-32 | filling the slot where the probe stops keeps every entry reachable |
| `Probing.PlacedIsVisible` | src/hash_index.c:152-162 | in a well placed table a key is held if and only if the probe finds it |
| `HashIndexes.BackShiftCorrect` | src/hash_index.c:192-209 | backward shift across the wrap-around keeps every entry reachable from its home and loses none |
| `HashIndexes.DeleteKeepsPlaced` | src/hash_index.c:189-210 | deletion removes exactly the one entry |
| `HashIndexes.RemoveAt` | src/hash_index.c:190-210 | the in-place shift loop computes `Deleted` |
| `HashIndexes.NeverFull` | src/hash_index.c:108-113 | a table of four slots or more always has an empty one, and so does any table being filled by a rehash |
| `HashIndexes.HolesHide` | src/hash_index.c:38-47 | in an old table an entry is hidden if and only if its probe must pass a slot that was migrated or removed |
| `HashIndexes.MissedIff` | src/hash_index.c:146-179 | told before the call: an operation misses an old-table entry if and only if the coming step does not migrate it and its path crosses a slot migrated by then or removed |
| `HashIndexes.ClusterHides` | src/hash_index.c:34-56 | when a grow begins over more than 16 keys in one cluster from slot 0, the next operation misses the key behind the first 16 |
| `HashIndexes.LookupFailsDuringGrow` | src/hash_index.c:34-179 | for every capacity from 32 on: fresh keys are put into an empty index until it grows, and a lookup of one of them, put and never removed, returns NOTFOUND |
| `HashIndexes.FreshIsNotHidden` | src/hash_index.c:125-137 | a key the tables do not hold is never hidden, so fresh puts during a grow keep them exact |
| `HashIndexes.MigrateBatch` | src/hash_index.c:37-47 | the migration loop conserves the entries of both tables, moves exactly the slots up to the cursor of sixteen more migrations, and leaves the rest |
| `HashIndexes.HashIndex.constructor` | src/hash_index.c:75-92 | an exact empty index of at least the capacity asked for |
| `HashIndexes.HashIndex.MakeRoom` | src/hash_index.c:108-113 | after the step and the grow check there is room for one more entry, and what is hidden is what was predicted |
| `HashIndexes.HashIndex.RehashStep` | src/hash_index.c:34-56 | the multiset of entries over both tables is conserved, and the old table is the one predicted |
| `HashIndexes.HashIndex.BeginGrow` | src/hash_index.c:58-73 | all entries move to the old table |
| `HashIndexes.HashIndex.Put` | src/hash_index.c:104-144 | the tables stay exact if and only if the call misses no entry of the key, told from the state before it; a key not held keeps them exact, in a rehash too |
| `HashIndexes.HashIndex.Get` | src/hash_index.c:146-179 | on exact tables the answer differs from the map if and only if the call misses an entry of the key, told from the state before it |
| `HashIndexes.HashIndex.Remove` | src/hash_index.c:181-231 | one entry of the key goes, or none; exactness as for put |
| `HashIndexes.HashIndex.FinishRehash` | src/hash_index.c:275-279 | entries conserved and nothing missed from then on, so get agrees with the map |
| `DirtyTrackers.MarkNodeWellFormed` | src/dirty_tracker.c:37-52 | a summary bit is set if and only if the child exists, after every mark |
| `DirtyTrackers.MarkNodeAdds` | src/dirty_tracker.c:37-52 | a mark adds exactly its page |
| `DirtyTrackers.ScanNode` | src/dirty_tracker.c:59-89 | the recursive scan appends the next marked pages below the limit, ascending |
| `DirtyTrackers.ComputeDepth` | src/dirty_tracker.c:91-100 | 64^(depth+1) is the span |
| `DirtyTrackers.SpanFromEstimate` | src/dirty_tracker.c:196-201 | a power of 64 that covers the estimate, as long as 64^4 does |
| `DirtyTrackers.SegmentFind` | src/dirty_tracker.c:122-131 | the segment's position, or where it belongs |
| `DirtyTrackers.SegmentGetOrCreate` | src/dirty_tracker.c:136-169 | adding a segment marks nothing |
| `DirtyTrackers.TreeMark` | src/dirty_tracker.c:171-179 | the set gains one page |
| `DirtyTrackers.TreeScan` | src/dirty_tracker.c:181-190 | the first marked pages below the limit over all segments |
| `DirtyTrackers.DirtyTracker.Mark` | src/dirty_tracker.c:223-225 | the active set gains one page |
| `DirtyTrackers.DirtyTracker.constructor` | src/dirty_tracker.c:203-215 | both sets empty, default capacity 262144 |
| `DirtyTrackers.DirtyTracker.Scan` | src/dirty_tracker.c:227-229 | the first `most` active pages below the capacity |
| `DirtyTrackers.DirtyTracker.Resize` | src/dirty_tracker.c:242-246 | the capacity never shrinks and the sets stay |
| `DirtyTrackers.DirtyTracker.ScanCkpt` | src/dirty_tracker.c:231-233 | the first `most` frozen pages below the capacity, strictly ascending |
| `DirtyTrackers.DirtyTracker.Swap` | src/dirty_tracker.c:235-240 | what was active is frozen, the active set is empty, the generation is one more |
| `DimRegistries.IndexIsStable` | src/dim_registry.c:183-245 | registering more dims never changes the index of a registered one |
| `DimRegistries.LinearFind` | src/dim_registry.c:51-56 | the linear scan gives the insertion index |
| `DimRegistries.SortedFind` | src/dim_registry.c:58-68 | binary search gives the insertion index |
| `DimRegistries.HashFind` | src/dim_registry.c:83-96 | the hash probe gives the insertion index |
| `DimRegistries.SortedInsert` | src/dim_registry.c:70-81 | stays sorted and gains the one entry |
| `DimRegistries.NextPow2` | src/dim_registry.c:23-31 | the least power of two from 16 on that is not smaller |
| `DimRegistries.FillTable` | src/dim_registry.c:140-143 | the table holds exactly the entries, well placed |
| `DimRegistries.Regrow` | src/dim_registry.c:149-167 | the new table holds exactly what the old one held, well placed |
| `DimRegistries.DimRegistry.constructor` | src/dim_registry.c:33-42 | an empty registry |
| `DimRegistries.DimRegistry.Find` | src/dim_registry.c:169-181 | in every mode: position in insertion order, or -1 |
| `DimRegistries.DimRegistry.UpgradeToSorted` | src/dim_registry.c:111-130 | the upgrade keeps every dim with its index |
| `DimRegistries.DimRegistry.UpgradeToHash` | src/dim_registry.c:132-147 | likewise, into a table that is a power of two and at most three quarters full |
| `DimRegistries.DimRegistry.HashGrow` | src/dim_registry.c:149-167 | doubling keeps every dim with its index |
| `DimRegistries.DimRegistry.Put` | src/dim_registry.c:183-245 | a known dim keeps its index, a new one gets the next, across both upgrades |
| `DimRegistries.DimRegistry.Add` | src/dim_registry.c:199-242 | in every mode, upgrades included, the new dim comes last and the registry stays valid |
| `DeltaChains.ReplayIsWrites` | src/checkpoint.c:494-516 | how pages are grouped into runs does not matter to a replay |
| `DeltaChains.DumpStep` | src/graveldb.c:1398-1434 | one step dumps the next pages of the scan, exactly as many as are left or its budget allows |
| `DeltaChains.RunEnd` | src/graveldb.c:1401-1405 | the longest run of consecutive pages |
| `DeltaChains.DumpAll` | src/graveldb.c:1236-1262 | the blocking dump dumps the whole scan |
| `DeltaChains.DumpRestores` | src/checkpoint.c:494-516 | writing a dump over an older file restores exactly the dumped pages |
| `DeltaChains.ChainMore` | src/checkpoint.c:464-526 | a delta that covers every changed page extends the chain |
| `DeltaChains.PutBatchTracks` | src/dimbin.c:550-565 | every page a batch buffers or changes is in the active dirty set |
| `DeltaChains.EndTracks` | src/dimbin.c:889-955 | so is every page the overlay replay changes |
| `DeltaChains.BeginTracks` | src/dimbin.c:875-887 | beginning freezes an image whose changes the frozen set covers |
| `DeltaChains.DumpTracks` | src/graveldb.c:1332-1453 | a complete dump of the frozen set extends the chain |
| `DeltaChains.FlushTracks` | src/dimbin.c:612-808 | a flush keeps the chain, and inside a checkpoint touches neither file nor buffer |
| `DeltaChains.SortedIsUnique` | src/checkpoint.c:575-581 | the same files in order of generation are the same list, however they were listed |
| `Recovery.Recover` | src/checkpoint.c:528-558 | from the listed files as bytes: replays in order of generation what is newer than the base and raises the bump pointer; a file whose count is still 0 replays as nothing; the library sort is an insertion sort here |
| `DeltaChains.RecoverRebuilds` | src/checkpoint.c:583-634 | from the image of any checkpoint, and files of which those that are newer and not empty are the session's, the last image is rebuilt |
| `Recovery.DumpedOk` | src/graveldb.c:1373-1443 | every dump of pages below 2^27 can be encoded |
| `Recovery.RecoverAfterRun` | src/checkpoint.c:528-558 | after any run, cut short at any moment, the bytes in the directory of a bin, in any order, replayed onto any image of the session, rebuild the image of its last completed checkpoint, also when a delta is half written; the bump pointer becomes the largest of the one given and those recorded when the newer files were created, and is not below that at the begin of any newer completed checkpoint |
| `Recovery.MarkIsBegin` | src/graveldb.c:1316-1330 | over every run, what is recorded for a checkpoint is the bin's bump pointer before the step that began it |
| `Recovery.HeadIsCreation` | src/graveldb.c:1373-1389 | and for a delta, the bump pointer before the operation that created its file |
| `Recovery.HeaderHolds` | src/graveldb.c:1373-1389 | the header in every file newer than the session holds the bump pointer recorded for it |
| `Recovery.DirRebuilds` | src/checkpoint.c:583-634 | what a directory in order rebuilds |
| `Recovery.RaisedIsHighest` | src/checkpoint.c:517-522 | the bump pointer recovered is the highest of the one given and those in the newer headers, and is one of them |
| `Directories.DumpedFile` | src/graveldb.c:1373-1443 | a step leaves the file with the header it was created with, which holds the bump pointer of that moment, a count of 0 and every run dumped so far; the last step leaves the complete delta |
| `Directories.WriteStep` | src/graveldb.c:1373-1443 | the writes of one step, to a file created by it or before, are `DumpFile` |
| `Directories.DumpKeepsDirs` | src/graveldb.c:1332-1453 | a dump step overwrites no finished delta, also of a bin created during the checkpoint |
| `Directories.WholeKeepsDirs` | src/graveldb.c:1199-1271 | nor does a blocking checkpoint, which adds one complete file to every bin |
| `Directories.OpKeepsDirs` | src/graveldb.c:1294-1469 | every operation keeps every finished delta in its own file under its recorded bump pointer, and nothing newer but the delta being written, with count 0 |
| `Directories.RunKeepsDirs` | src/graveldb.c:1294-1469 | so does every run |
| `Checkpoints.BatchPutTracks` | src/graveldb.c:665-794 | a batch put changes nothing a running checkpoint can see |
| `Checkpoints.BatchDeleteTracks` | src/graveldb.c:796-822 | nor does a batch delete |
| `Checkpoints.FlushAllTracks` | src/graveldb.c:828-985 | nor does a flush, which also changes no read and leaves nothing buffered |
| `Checkpoints.CkptStepKeepsInv` | src/graveldb.c:1294-1469 | every step, whatever bins were created meanwhile, keeps ownership, chain and snapshot |
| `Checkpoints.FlushStepKeepsInv` | src/graveldb.c:1316-1330 | beginning one bin keeps them |
| `Checkpoints.DumpKeepsInv` | src/graveldb.c:1332-1453 | so does a dump step, also when it opens or closes a delta |
| `Checkpoints.FinishKeepsInv` | src/graveldb.c:1455-1465 | so does ending all bins |
| `Checkpoints.ScanIsWhole` | src/graveldb.c:1369-1369 | a scan of at most 2^20 pages is the ascending list of the frozen set |
| `Checkpoints.WholeKeepsInv` | src/graveldb.c:1188-1283 | the blocking checkpoint keeps them too and changes no read |
| `Checkpoints.RunKeepsInv` | src/graveldb.c:1294-1469 | so does every run |
| `Checkpoints.StartedInv` | src/graveldb.c:193-305 | a store just opened satisfies the invariant |
| `Checkpoints.DeltasRebuildImages` | src/graveldb.c:1332-1453 | over every run, replaying the first k deltas onto the starting file gives the image frozen at the k-th begin, and delta k holds exactly the pages dirty then |
| `Checkpoints.SnapshotHolds` | src/dimbin.c:504-515 | over every run, a bin in a checkpoint shows its frozen image, buffers nothing over it, and its unfinished delta holds that image's pages |
| `Checkpoints.StepComesNearer` | src/graveldb.c:1294-1469 | with any budgets, (phases left, bins left, pages left) strictly decreases until idle |
| `Checkpoints.StepWithinBudget` | src/graveldb.c:1298-1414 | a step adds no more pages to the delta files than it was asked for, or 64 if asked for none, and exactly as many when it leaves a delta open |
| `Checkpoints.RunWithinBudgets` | src/graveldb.c:1294-1469 | over every run of puts, deletes, flushes and steps, the pages dumped never exceed the pages asked for, 64 where none were |
| `DeltaRuns.IncrementalIsBlocking` | src/graveldb.c:1294-1469 | over every run and every sequence of budgets, the delta completed for a bin replays onto every file like the delta the blocking checkpoint would have written where that bin began |
| `DeltaRuns.RunContinues` | src/graveldb.c:1438-1453 | over every run, images and finished deltas are only ever added to |
| `GravelDBs.PutKeyLoop` | src/graveldb.c:721-762 | the key loop of a group computes `PutKeys` |
| `GravelDBs.PutGroupLoop` | src/graveldb.c:693-790 | the group loop computes `PutGroups`, last status included |
| `GravelDBs.DeleteLoop` | src/graveldb.c:801-819 | the delete loop computes `BatchDelete` |
| `GravelDBs.GravelDB.constructor` | src/graveldb.c:193-305 | starts the machine, over delta files no newer than the session |
| `GravelDBs.GravelDB.Put` | src/graveldb.c:665-794 | refines the machine's put, reads your writes, gives new bins empty directories, and returns the status `BatchPutStatus` and `IdleBatchStatus` name |
| `GravelDBs.GravelDB.Delete` | src/graveldb.c:796-822 | refines the machine's delete; the index loses exactly the features named |
| `GravelDBs.GravelDB.FlushBins` | src/graveldb.c:828-985 | refines the machine's flush |
| `GravelDBs.GravelDB.FlushPhase` | src/graveldb.c:1316-1330 | refines the flushing step |
| `GravelDBs.GravelDB.DumpPhase` | src/graveldb.c:1332-1453 | refines the dumping step, with what the scan and the run loop found, and writes it: header, runs and patched count leave the bin's file as `DumpDirs` says |
| `GravelDBs.GravelDB.FinishPhase` | src/graveldb.c:1455-1465 | refines the finishing step |
| `GravelDBs.GravelDB.CheckpointStep` | src/graveldb.c:1294-1469 | is one step of the machine, files included, comes nearer to the end, and dumps no more pages than asked for, or 64 |
| `GravelDBs.GravelDB.Checkpoint` | src/graveldb.c:1188-1283 | begins, dumps and ends every bin, and is the blocking checkpoint of the machine, files included |
| `GravelDBs.GravelDB.BeginBins` | src/graveldb.c:1192-1197 | every bin has begun |
| `GravelDBs.GravelDB.DumpBins` | src/graveldb.c:1199-1271 | one complete delta for each bin, written to its file |
| `GravelDBs.GravelDB.EndBins` | src/graveldb.c:1273-1278 | every bin has ended, with nothing written meanwhile |
| `Reopening.Rebuild` | src/graveldb.c:93-154 | the scan of the key files computes `VisitAll` |
| `Reopening.ScanFile` | src/graveldb.c:101-148 | one key file is visited slot by slot |
| `Reopening.IndexIsSurvivors` | src/graveldb.c:124-148 | for any key files, the index maps a feature to its surviving occurrence |
| `Reopening.OnceSurvives` | src/graveldb.c:146-147 | a feature found once survives |
| `Reopening.TwiceIsDropped` | src/graveldb.c:131-144 | a feature found in two bins is dropped |
| `Reopening.FreeIsEmpty` | src/graveldb.c:124-129 | without conflicts exactly the empty slots are freed |
| `Reopening.KeyFilesHold` | src/dimbin.c:430-442 | after a close the key files name every indexed feature once and nothing else |
| `Reopening.ReopenRoundTrip` | src/graveldb.c:193-328 | close and open with a list of dims brings back exactly the features of those dims, in their slots of the bins of those dims, with their keys and embeddings, and every other slot free, ascending; each bin has the generation its meta file names, the configured overlay budget, the sizes of its files, as many slots as both have room for, and an equal share of the write buffer |
| `Reopening.SameOrderSamePlaces` | src/graveldb.c:256-279 | no feature moves when the registered dims are listed first, in their order |
| `Puts.BatchPutIsUpdate` | src/graveldb.c:665-794 | a successful put is a map update of what readers see if and only if every feature it does not name is kept or reads as zeros anyway |
| `Puts.BatchPutExact` | src/graveldb.c:665-794 | exact effect of a successful put on every feature it does not name, decided before the call by the requests for its dim |
| `PutOutcomes.PutKeysLooped` | src/graveldb.c:721-762 | the key loop puts off the writes of exactly the requests whose feature is in no other bin, in order, and indexes exactly their features, whatever its status |
| `PutOutcomes.GroupIsOutcome` | src/graveldb.c:721-787 | exact effect of a dim group on every feature, whatever its status: what it takes is written, other bins are left alone, unnamed entries are kept or zeroed, and a new feature whose write is refused reads what its slot held |
| `PutOutcomes.BatchIsOutcome` | src/graveldb.c:665-794 | so for the whole batch, up to a dim that may not be given a bin |
| `PutOutcomes.FullPagesAreSafe` | src/dimbin.c:478-489 | whatever its status, a put leaves every feature it does not name as it was, if the feature's page lies wholly below the bump pointer and begins inside the data file |
| `PutOutcomes.BinsOfPut` | src/graveldb.c:160-191 | bins there were keep budget, generation, buffer and checkpoint state; a new one has the configured overlay budget, generation 0, and as many buffered pages as fill its share of the buffer, 4 MB at least |
| `PutOutcomes.GroupReserves` | src/dimbin.c:231-251 | a group enlarges both files for one slot a request, by the doubling rule, and handing out the slots never enlarges them again |
| `PutStatuses.GroupStatus` | src/graveldb.c:721-787 | the status of a group: BUSY exactly when its bin is in a checkpoint whose overlay budget is used up before its last write, else DIM_MISMATCH exactly when it names a feature of another bin, else what it was |
| `PutStatuses.WritesStatus` | src/dimbin.c:504-515 | a batch of writes is BUSY exactly when the overlay's budget is used up before its last write |
| `PutStatuses.BatchPutStatus` | src/graveldb.c:665-794 | the status of a put: INVALID exactly when some dim has no bin and may not be given one; otherwise the last group that fails decides |
| `PutStatuses.IdleBatchStatus` | src/graveldb.c:665-794 | outside a checkpoint, from the requests and the store before: INVALID as above, else DIM_MISMATCH exactly when a feature is given a dim that is not that of its bin, or, if it is new, not the lowest the batch gives it, else success |
| `PutStatuses.BatchPutSucceeds` | src/graveldb.c:665-794 | a put returns success if and only if every dim has a bin or may be given one, and every group takes every request |
| `Puts.BufferedIsSafe` | src/dimbin.c:447-496 | puts beside features whose pages are reloaded, or buffered with room for the pages touched, lose nothing |
| `Runs.DeleteIsRemoval` | src/graveldb.c:796-822 | a delete is a map removal of what readers see |
| `Runs.BeginKeepsView` | src/dimbin.c:875-887 | beginning a checkpoint of a bin changes no feature |
| `Runs.EndKeepsView` | src/dimbin.c:889-955 | ending a checkpoint changes no feature if and only if every slot lasts through the replay or reads as zeros anyway |
| `Runs.EndExact` | src/dimbin.c:889-955 | exact effect of ending a checkpoint on every feature |
| `Runs.FullPagesLast` | src/dimbin.c:889-955 | a feature whose page lies wholly below the bump pointer and begins inside the data file comes through the end of a checkpoint |
| `Runs.WholeKeepsView` | src/graveldb.c:1188-1283 | a blocking checkpoint changes no feature |
| `Runs.OpHasMeaning` | src/graveldb.c:1294-1469 | an operation, a put with success, does to the view what it does to a map if and only if it is lossless |
| `Runs.OpOutcome` | src/graveldb.c:1294-1469 | what every operation does to the view: its losses, then its meaning; for a put that fails, what its groups take |
| `Runs.RunIsExact` | src/graveldb.c:1294-1469 | over every run, readers see exactly what the puts and deletes leave in a map, less the entries named as lost, and with what is named for each put that fails |
| `LostPages.LastPageIsLost` | src/dimbin.c:478-489 | for every configuration: put, flush, put another, and the first reads as zeros if and only if a page holds three entries or more |
| `LostPages.UnlistedIsGone` | src/graveldb.c:256-279 | for every configuration: a feature put into a store that creates its bins on the fly is gone after an open that lists no dims, and back after one that lists its dim |
| `Runs.StoreIsAMap` | src/graveldb.c:1294-1469 | over every lossless run readers see what the puts and deletes alone would leave in a map |
| `Runs.RunOwnsSlots` | src/dimbin.c:948-950 | over every run each slot below the bump pointer has exactly one owner |
| `Runs.ReopenAfterRun` | src/graveldb.c:193-354 | after any run that ends outside a checkpoint, a close and an open with a list of dims leave what readers saw of those dims; all of it if and only if every dim with a feature is listed; the same places when the registered dims come first in order; every bin as `ReopenRoundTrip` says; and the store reopened is one that runs can start from |
| `BatchGets.Look` | src/graveldb.c:422-445 | overlay, then buffer, else the entry is in the file only |
| `BatchGets.Resolve` | src/graveldb.c:409-446 | one request: absent, answered from memory, or a miss that names it |
| `BatchGets.ResolveAll` | src/graveldb.c:409-446 | all requests are answered except those that must go to the file, each of which has one miss |
| `BatchGets.SortMisses` | src/graveldb.c:453-463 | the misses, ordered by bin and page |
| `BatchGets.GroupMisses` | src/graveldb.c:477-493 | page reads tile the misses, each serves all misses of its page, and no page is read twice |
| `BatchGets.ReadPage` | src/graveldb.c:537-566 | reading a page once answers all its misses |
| `BatchGets.BatchGet` | src/graveldb.c:392-617 | every request, repeats included, gets what a single read gives, except that the only request for a single-entry page gets the bytes at the linear offset; and its dim |
| `BatchGets.DirectIff` | src/graveldb.c:541-551 | the direct read is taken exactly for the only request for a feature on a single-entry page |
| `BatchGets.DeliveredIsAnswer` | src/graveldb.c:591-610 | so every request gets what a single read gives, unless such a page has slack |
| `Wire.GetPut` | src/wire.h:63-97 | little-endian integers of any width read back |
| `Wire.GetPutMod` | src/wire.h:63-97 | and a value too wide reads back modulo its width |
| `Wire.ByteOfPut` | src/wire.h:63-97 | byte i holds the bits from 8 i on |
| `Wire.LowHalf` | src/checkpoint.c:1428-1433 | the first half of a stored id is the id modulo 2^32 |
| `Wire.DeltaHeaderRoundTrip` | src/wire.h:146-178 | the delta header decodes to what was encoded, and every field lies at its offset |
| `Wire.PatchedCount` | src/graveldb.c:1438-1441 | patching the count at offset 32 equals having written it |
| `Wire.ExportHeaderRoundTrip` | src/wire.h:247-279 | the export header decodes to what was encoded, and every field lies at its offset |
| `DeltaFiles.WriteDelta` | src/graveldb.c:1384-1450 | the file a dump leaves |
| `DeltaFiles.AppendRuns` | src/graveldb.c:1398-1434 | the entries of a step follow what the file held |
| `DeltaFiles.ReplayEntries` | src/checkpoint.c:494-516 | the entry loop replays exactly the runs written |
| `DeltaFiles.NextEntry` | src/wire.h:187-197 | the next entry decodes to the next run and ends where the rest begins |
| `DeltaFiles.ReplayDelta` | src/checkpoint.c:464-526 | a written delta replays run for run and raises the bump pointer; one whose count is still 0 replays as nothing; short, foreign and mismatched files are refused and change nothing |
| `Exports.BuildRanges` | src/checkpoint.c:851-885 | the coalesced ranges tile the live slots |
| `Exports.ScanKeys` | src/checkpoint.c:1010-1021 | the ops are the live slots of the batch |
| `Exports.ReadRange` | src/checkpoint.c:1035-1041 | one read copies its bytes and leaves the rest of the pool alone |
| `Exports.ReadRanges` | src/checkpoint.c:1035-1041 | every op's buffer holds its own slot's entry |
| `Exports.WriteItems` | src/checkpoint.c:1057-1072 | the output is id and embedding of every op |
| `Exports.Export.constructor` | src/checkpoint.c:696-844 | an export about to begin |
| `Exports.Export.ReadKeys` | src/checkpoint.c:901-940 | advances the cursor or finds the scan done |
| `Exports.Export.ReadEmbeddings` | src/checkpoint.c:1005-1045 | scans the keys and reads the embeddings, or returns to idle when the batch has none |
| `Exports.Export.WriteOut` | src/checkpoint.c:1057-1078 | appends the batch; the dump stays equal to the live slots done |
| `Exports.Export.Finish` | src/checkpoint.c:1110-1119 | appends the trailer |
| `Exports.Export.Step` | src/checkpoint.c:887-1082 | every phase keeps the dump equal to the live slots done, and steps left decrease |
| `Exports.LiveIsExact` | src/checkpoint.c:1010-1021 | the items are the slots with a key, each once, ascending, with the bytes at their linear offset, which are their own embedding when pages hold no slack |
| `Exports.RunExport` | src/checkpoint.c:1084-1144 | for every batch size the finished dump is header, live items, trailer |
| `Exports.Parse` | src/checkpoint.c:1389-1461 | refuses short and foreign files, else returns the entries up to a trailer or the end |
| `Exports.ParseLoop` | src/checkpoint.c:1416-1456 | the read loop computes `ParseItems` |
| `Exports.ParseOfDump` | src/checkpoint.c:1416-1456 | parsing a dump gives its header and the items before the first id that looks like the trailer |
| `Exports.ParseIsComplete` | src/checkpoint.c:1428-1433 | all items come back if and only if no id has the trailer magic as its low half |
| `Exports.ParseOfCut` | src/checkpoint.c:1416-1456 | a dump cut off inside an entry gives the entries before it and an error; one cut off between entries is taken for complete |
| `Exports.DumpLayout` | src/checkpoint.c:1057-1119 | the dump byte by byte: 48 bytes of header, id and embedding of every item, the magic, and in the last eight bytes the number of items |

## Left out

- io_uring and the system calls (src/io_uring_flush.c): each read or write is one atomic success.
- Asynchronous flush (src/graveldb.c:1005-1186): what is buffered after the submit is cleared by the poll, so a flush is not a function of the state it began in.
- Partial flush branches (src/dimbin.c:809-862, src/graveldb.c:943-981): not reached with at most 65536 buffered pages.
- Delta-mode export (src/checkpoint.c:941-999) and import (src/checkpoint.c:1238-1329).
- The concrete page map (src/dimbin.h:42-68) and overlay table (src/overlay.c): finite maps here; any storage order of the overlay is allowed for.
- Slab allocation and every out-of-memory fallback.
- The meta file, directory listing and file names. Both checkpoints write the checksum of a delta as 0 and no replay reads it; `ckpt_dump_delta` (src/checkpoint.c:198-309), which nothing calls, computes one.
- The checkpoint scheduler (src/checkpoint.c:43-196): compares a clock with two intervals, calls flush and checkpoint, saves the generations, copies the files for a full checkpoint and marks the requests that wait for it done. When flush and checkpoint are called is arbitrary here.
- The example server, client and poller (example/): move requests over sockets to the calls modelled here; the Go and Rust wrappers pass them through.
- The hash mixers (src/hash_index.c:13-20, src/dim_registry.c:15-21): theorems hold for every hash function.
- `GravelDBs.GravelDB` holds its bins as values, each refined by the class `DimBins.DimBin`; sharing between bin objects is not modelled.
- The dirty tracker's nodes, the dim registry's entry list and the pages in the write buffer are values a method replaces; their update in place is not modelled.
- Alignment padding behind a vector: the overlay keeps only the vector (src/overlay.c:197), here an embedding is the whole entry.
- The files of a dim that an earlier open left unlisted, once that dim is put or listed again. A put starts above their slots, whose keys no index holds until an open lists the dim (src/dimbin.c:124-128); `Stores.FreshDims` excludes it. A listing scans them together with what was put since; `Reopening.IndexIsSurvivors` says what becomes of every feature.
- The parser's early stop on request of its callback.
