# A model of the SBCL runtime's memory management

This project models the parts of the SBCL runtime in which a mistake loses or corrupts objects,
and proves the properties that the rest of Lisp takes for granted. Each module is self-contained
apart from the imports it names.

| module | what it models |
|---|---|
| `Bits`, `Arith`, `Options` | bit masks as naturals; multiples of a variable unit; optional values |
| `HopscotchSpec`, `Hopscotch` | the hopscotch hash table over in-place arrays, as a refinement of a finite map |
| `HeapWords`, `CopySpec`, `CollectSpec`, `Copying` | copying collection with weak hash tables: liveness as a least fixed point, forwarding, list linearisation, triggers, culling and the cells it records |
| `WeakCull` | the walk over the linked bucket chains of one weak table: count, culled cells, rehash mark |
| `BlockQueue`, `FullMark` | the full mark phase over its queue of linked, recycled blocks |
| `WeakMark` | weak tables in the full mark phase |
| `Sweep` | sweeping a range of dynamic space into fillers |
| `ImmobileQueue` | the bounded work queue of immobile space and its fallback to a full scan |
| `FixedObjSweep`, `FixedObjAlloc` | the hole chain of a fixed-object page, and the lock-free allocator that consumes it |
| `TextSpace` | code blobs: high-water mark and per-page scan starts over allocator blocks |
| `CoalesceSpec`, `Coalesce`, `CoalesceTable` | coalescing of equal constants, and why the hopscotch table it uses stays valid |
| `Arena` | the arena allocator over all interleavings of its threads |
| `PageTable` | condensed scan starts and their encoding in a core file |
| `ThreadPool` | the pool of collector threads |
| `Heapsort` | the in-place heapsort |

Code that updates structures in place is modelled by classes and by methods over arrays, each
proved against functions and predicates on values. The three protocols between threads
(`FixedObjAlloc`, `Arena`, `ThreadPool`) are state machines whose steps are the single reads,
writes, compare-and-swaps, lock and semaphore operations, and whose theorems hold in every state
of every run.

Three properties one might expect are false of the code, and are stated as they are:

* In the full mark phase a weak table can lose a live value: an object without pointers that is
  livened by a trigger is marked but not queued, and the loop stops on an empty queue
  (`src/runtime/fullcgc.c:211`, `src/runtime/fullcgc.c:304-306`), though that object may trigger
  another entry. `WeakMark.LeafRelayMissed` gives a heap, at any addresses.
  `WeakMark.ExactUnlessOpen` says for each order of the trigger table exactly when the phase is
  exact, and `WeakMark.MissedExactlyByRelays` exactly which states some order can spoil; a condition
  on the heap alone that rules this out is that no such object is both livened by one entry and the
  trigger of another (`WeakMark.MarksExactlyLive`). The phase never marks too much
  (`WeakMark.OnlyLiveMarked`). The copying collector tests its bump pointer instead of a queue and
  has no such gap.
* The iterated lookback over scan starts does not return for a maximum code of 1
  (`PageTable.MaxOneNeverReturns`); for every odd maximum from 3 on it is exact.
* A page's type byte does not survive a core file if it has the thread or open-region flag;
  `PageTable.FlagsSurvive` says exactly which bytes do.

Widths: addresses, counts and indices are unbounded naturals, except that hop masks are shown to
fit in 32 bits and the maximum of the scan-start code is a parameter.

## Model

| member | source | states |
|---|---|---|
| `HopscotchSpec.SizesAllowed` | src/runtime/hopscotch.c:367 | the table sizes accepted are exactly the powers of two |
| `HopscotchSpec.OneOwner` | src/runtime/hopscotch.c:831-880 | an occupied cell is claimed by exactly one bin: two bins whose masks name it are the same bin |
| `HopscotchSpec.OccupiedCount` | src/runtime/hopscotch.c:831-842 | the number of nonzero key cells is the number of pairs the table denotes |
| `HopscotchSpec.MaskWidth` | src/runtime/hopscotch.c:80-86 | every hop mask has no bit at or beyond the hop range, so it fits its unsigned int |
| `HopscotchSpec.PutKeeps` | src/runtime/hopscotch.c:560-583 | writing an absent key into a free cell within the range of its bin and setting the bit keeps the whole invariant, for the map with that pair added |
| `HopscotchSpec.MoveKeeps` | src/runtime/hopscotch.c:605-622 | moving a cell owned by a bin to a free cell of the same bin and toggling both bits keeps the invariant for the same map, and frees the old cell |
| `HopscotchSpec.RemoveKeeps` | src/runtime/hopscotch.c:813-817 | zeroing an occupied cell, its value and its hop bit keeps the invariant for the map without that key |
| `HopscotchSpec.StoreKeeps` | src/runtime/hopscotch.c:788-790 | overwriting the value in an occupied cell keeps the invariant for the updated map |
| `HopscotchSpec.AllZero` | src/runtime/hopscotch.c:424-443 | a table that denotes the empty map is zero in every key, value and mask, which is why a reset may skip the zeroing when the count is 0 |
| `HopscotchSpec.ZeroIsOk` | src/runtime/hopscotch.c:234-276 | zeroed storage of any legal shape is a valid empty table |
| `HopscotchSpec.WindowInBounds` | src/runtime/hopscotch.c:661-690 | a probe of 4 or 8 adjacent cells, made only when one of its bits is set, stays inside the key array |
| `HopscotchSpec.SearchedAll` | src/runtime/hopscotch.c:702-715 | once the shifted mask is 0 no key of the map that hashes to the bin can match |
| `HopscotchSpec.AllCopied` | src/runtime/hopscotch.c:478-493 | inserting the occupied cells from the highest to the lowest rebuilds exactly the old map |
| `Hopscotch.SameHome` | src/runtime/hopscotch.c:307-359 | keys equal under the table's comparator have the same home bin, whatever the table size or hash function in use |
| `Hopscotch.Table.constructor` | src/runtime/hopscotch.c:364-408 | a new table of any power-of-two size is valid, empty, and has the hop range of 8, 16 or 32 that its size selects |
| `Hopscotch.Table.HomeBinHashes` | src/runtime/hopscotch.c:49-56 | the home bin is the hash of the table's own function, which only a default table may switch, reduced to the number of bins |
| `Hopscotch.Table.ProbeFour` | src/runtime/hopscotch.c:707-720 | the search four cells at a time, which ignores the mask bits inside a group, finds the key's cell exactly when the key is present |
| `Hopscotch.Table.ProbeMask` | src/runtime/hopscotch.c:702-706 | the search by single mask bits with the comparator finds an equal key exactly when there is one |
| `Hopscotch.Table.Contains` | src/runtime/hopscotch.c:646-691 | the unrolled search eight cells at a time is true exactly of the keys present |
| `Hopscotch.Table.Find` | src/runtime/hopscotch.c:694-720 | the cell found holds an equal key and its value; none is found only if none is present |
| `Hopscotch.Table.Get` | src/runtime/hopscotch.c:694-721 | a map yields the value of the equal key, a set its cell index plus 1, and an absent key `notfound` |
| `Hopscotch.Table.Displace` | src/runtime/hopscotch.c:584-622 | one round of the displacement loop keeps the map, moves the free cell strictly left by less than the hop range, or changes nothing and no bin can give up a cell |
| `Hopscotch.Table.Relocate` | src/runtime/hopscotch.c:609-620 | one key moves to the free cell, its bin owning that instead; the map is the same |
| `Hopscotch.Table.PutPair` | src/runtime/hopscotch.c:560-583 | stores a pair, its hop bit and the count: the map gains exactly that pair |
| `Hopscotch.Table.TryInsert` | src/runtime/hopscotch.c:550-626 | an insertion without resizing adds exactly the pair, or fails leaving the map as it was; it succeeds if the home cell is empty, and if the table is below its threshold and any cell within the hop range of home is empty; it fails only because of the threshold, of a full array or of a stuck free cell beyond the range |
| `Hopscotch.Table.BringNear` | src/runtime/hopscotch.c:578-625 | from the first free cell right of home: the pair is stored at once if that is in range, else after displacements, unless one is stuck beyond the range |
| `Hopscotch.Table.RemoveAt` | src/runtime/hopscotch.c:813-817 | clearing a cell removes its key and nothing else |
| `Hopscotch.Table.Delete` | src/runtime/hopscotch.c:795-818 | removes exactly the equal key, and tells whether there was one |
| `Hopscotch.Table.Fill` | src/runtime/hopscotch.c:471-494 | one resize attempt, possibly with the other hash function, leaves a valid table that denotes the same map if it succeeds, and does succeed if the keys have home bins of their own under the hash function chosen |
| `Hopscotch.Table.Rehash` | src/runtime/hopscotch.c:478-493 | copying all cells into a fresh table either stops early or yields the same map; it does not stop early if the keys have home bins of their own there, and then leaves each in its home cell; if it stops early, the copy was a valid table for some of the keys with no free cell within range of the home bin of another |
| `Hopscotch.Table.Adopt` | src/runtime/hopscotch.c:496-513 | taking over the storage and hash function of the copy keeps the map |
| `Hopscotch.Table.ResizeUp` | src/runtime/hopscotch.c:451-514 | when it returns, the table denotes the same map in the size reached by doubling once for each attempt, even after failed attempts and a change of hash function; it succeeds no later than the first size at which the keys have home bins of their own, and at every size that failed a table of that size can jam |
| `Hopscotch.Table.Attempt` | src/runtime/hopscotch.c:471-513 | one doubling: either the table is as it was or its storage is new; the latter if the keys have home bins of their own at the new size, the former only if a table of that size can jam |
| `Hopscotch.Table.Insert` | src/runtime/hopscotch.c:550-626 | adds exactly the pair and returns the new count; at once if the home cell is empty, or below the threshold if any cell within range of home is; growing, no later than the first size tried at which all keys have home bins of their own; it gives up only after every attempt of the budget had a reason to fail, a jam or a table past its threshold; a table being rehashed may report that there is no room, with the map unchanged |
| `Hopscotch.JamIsCrowd` | src/runtime/hopscotch.c:567-609 | a table of which some key finds no cell within range of its home bin has more keys than the range with home bins less than the range away from that one |
| `Hopscotch.SparseFits` | src/runtime/hopscotch.c:550-574 | an insertion succeeds by the first size tried that leaves the table below its threshold and nowhere has more keys near one bin than the hop range |
| `Hopscotch.FewFit` | src/runtime/hopscotch.c:550-574 | whatever the hash function, up to 8 keys fit at the first attempt |
| `Hopscotch.Table.GrowAndInsert` | src/runtime/hopscotch.c:565-574 | growing and starting again keeps these promises |
| `Hopscotch.Table.Put` | src/runtime/hopscotch.c:763-791 | updates the value of the equal key and of no other, or inserts as an insertion does; it reports an update exactly when the key was present |
| `Hopscotch.Table.Reset` | src/runtime/hopscotch.c:424-448 | always yields a valid empty table of the size the heuristics select, whether or not storage was zeroed or laid out anew |
| `Hopscotch.Table.Relayout` | src/runtime/hopscotch.c:234-276 | laying out the same storage of an empty table for half the bins, without zeroing, is valid |
| `Hopscotch.Table.Zero` | src/runtime/hopscotch.c:426-429 | zeroing the storage yields the empty map |
| `Hopscotch.Table.SwitchHash` | src/runtime/hopscotch.c:474-476 | an empty copy may change its hash function |
| `Hopscotch.Table.RestoreHash` | src/runtime/hopscotch.c:444-446 | an empty table may return to its fast hash function |
| `CopySpec.LeastIsLeast` | src/runtime/gc-common.c:1376-1407 | the least closed set of objects is contained in every set closed under strong edges and entry edges |
| `CollectSpec.FixedPointIsLeast` | src/runtime/cheneygc.c:267-283 | when the scan has caught up and no pending trigger survives, the objects copied are exactly the least set closed under the roots, strong edges and the entry rule of each weakness |
| `CollectSpec.TiledTotal` | src/runtime/cheneygc.c:73-80 | the bump pointer after the scan is the sum of the sizes of the objects copied |
| `CollectSpec.NewSpaceTiled` | src/runtime/cheneygc.c:73-80 | after a collection the objects of new space, the conses for culled cells included, lie at even addresses one after another up to the bump pointer, without overlap and without gap but for padding: 2 words for a cons, a header, a length, its words and 2 for each entry for any other object |
| `CollectSpec.TwoWordsEach` | src/runtime/gc-common.c:662-699 | a heap of conses leaves exactly 2 words in new space for each one reachable |
| `CollectSpec.EntriesByWeakness` | src/runtime/gc-common.c:1782-1866 | each entry of a live table survives with both halves relocated if its key is live, its value is, either is or both are, by the weakness of the table, and otherwise holds the empty marker in both halves |
| `CollectSpec.NothingLeftBehind` | src/runtime/gc-common.c:1782-1929 | after culling no root, and no word or entry of any object in new space, the conses for culled cells included, refers to from-space |
| `CollectSpec.LiveIsReachable` | src/runtime/gc-common.c:106-114 | without weak tables the least closed set is what paths of pointers reach from the roots |
| `CollectSpec.CollectionIsIsomorphism` | src/runtime/cheneygc.c:73-283 | without weak tables the forwarding map is a bijection from the reachable objects to the copies that commutes with every word, and new space takes exactly the sum of their sizes |
| `CopySpec.CopyKeeps` | src/runtime/gc-common.c:662-699 | copying one object to the bump pointer keeps the whole collector invariant and only extends what was there |
| `CopySpec.RewriteKeeps` | src/runtime/gc-common.c:190-216 | storing scavenged words in a copy not yet scanned keeps the invariant |
| `CopySpec.ScanStep` | src/runtime/gc-common.c:190-216 | an object all of whose words and entries have been dealt with joins the scanned part |
| `CopySpec.WatchKeeps` | src/runtime/gc-common.c:1366-1385 | adding a trigger for an entry of a live table keeps the invariant |
| `CollectSpec.CullLive` | src/runtime/gc-common.c:1854-1863 | an entry that passes the liveness test has both halves replaced by the copies; an empty one stays empty; nothing is recorded |
| `CollectSpec.CullDead` | src/runtime/gc-common.c:1804-1853 | an entry that fails it is emptied and recorded once, with its index and bucket, in front of the list |
| `CollectSpec.Pushed` | src/runtime/gc-common.c:1820-1846 | the one or two conses allocated at the bump pointer, small or large by index and bucket, put the cell in front of the list and disturb no other object |
| `CollectSpec.CullOne` | src/runtime/gc-common.c:1868-1904 | culling one table leaves all other copies and lists as they were, and new space grows by exactly the conses of its list |
| `CollectSpec.ChainWalkCulls` | src/runtime/gc-common.c:1793-1865 | the walk over linked chains, with this collection's liveness test and forwarding, leaves at every index what the collector needs |
| `CollectSpec.LinkedIsBucketed` | src/runtime/gc-common.c:1793-1798 | chains linked through the next vector are buckets in the collector's sense |
| `CollectSpec.NothingCulled` | src/runtime/cheneygc.c:73-80 | if no entry of a live table dies, new space holds exactly the copies and takes the sum of their sizes |
| `CollectSpec.Finish` | src/runtime/cheneygc.c:195-206 | the fixed point followed by culling is a finished collection: least live set, one-to-one forwarding, images, dead entries emptied and recorded, new space made up of the copies and the conses that record culled cells, its size the sum of both |
| `Copying.Collector.constructor` | src/runtime/cheneygc.c:73-80 | before a collection nothing is forwarded and nothing copied |
| `Copying.Collector.Transport` | src/runtime/gc-common.c:662-676 | copies one object to the bump pointer and leaves a forwarding pointer |
| `Copying.Collector.TransList` | src/runtime/gc-common.c:662-699 | linearises a list, circular or shared tails included, copying each cons once and forwarding the first |
| `Copying.Collector.CopyNext` | src/runtime/gc-common.c:683-695 | one more cons of the list is copied and linked to the one before |
| `Copying.Collector.Scav1` | src/runtime/gc-common.c:106-114 | a word becomes the image of its object, which is copied if it had not been |
| `Copying.Collector.ScavengeWords` | src/runtime/gc-common.c:218-232 | every strong word of the copy becomes an image |
| `Copying.Collector.AddTrigger` | src/runtime/gc-common.c:1366-1373 | the watched word will be livened if the trigger survives |
| `Copying.Collector.ScanEntry` | src/runtime/gc-common.c:1574-1590 | an entry found alive is scavenged, any other is deferred with the triggers of its weakness |
| `Copying.Collector.ScavengeEntry` | src/runtime/gc-common.c:1582-1586 | both halves of an entry found alive become images |
| `Copying.Collector.DeferEntry` | src/runtime/gc-common.c:1376-1385 | each half that would keep the entry alive watches for the other |
| `Copying.Collector.ScanTable` | src/runtime/gc-common.c:1625-1658 | a weak table is scanned once each entry is scavenged or watched, and is listed for culling if any is deferred |
| `Copying.Collector.HeapScavenge` | src/runtime/gc-common.c:190-216 | scanning a range of new space scans exactly its objects and ends at its end |
| `Copying.Collector.LivenAll` | src/runtime/gc-common.c:1437-1450 | livens all that a surviving trigger watches and drops the trigger |
| `Copying.Collector.TestWeakTriggers` | src/runtime/gc-common.c:1411-1466 | if a pass copied nothing then no pending trigger survives, whatever the order of the pass; it reports no change only if it copied nothing |
| `Copying.Collector.CatchUp` | src/runtime/cheneygc.c:274-281 | the scan catches up with the bump pointer |
| `Copying.Collector.ScavengeNewspace` | src/runtime/cheneygc.c:267-283 | ends with everything copied also scanned and no pending trigger surviving |
| `Copying.Collector.CullEntry` | src/runtime/gc-common.c:1794-1863 | one entry: fixed, or emptied and recorded in conses allocated at the bump pointer |
| `Copying.Collector.CullBucket` | src/runtime/gc-common.c:1782-1866 | the entries of one chain in order, and no others |
| `Copying.Collector.CullTable` | src/runtime/gc-common.c:1868-1904 | all buckets: exactly the entries that fail the liveness test are emptied and recorded, the others point to copies, and nothing else in new space changes but for the conses added |
| `Copying.Collector.CullTables` | src/runtime/gc-common.c:1931-1946 | every listed table is culled, no other object is touched, and new space grows by 2 words for each small and 4 for each large cell |
| `Copying.Collector.CollectGarbage` | src/runtime/cheneygc.c:117-225 | the whole effect of a collection: least live set, injective forwarding, each object copied once, images throughout, dead entries gone and recorded once each with their bucket, new space made up of copies and recorded cells, and its size the sum of both |
| `WeakCull.CellRoundTrip` | src/runtime/gc-common.c:1815-1837 | the record of a culled cell gives back its index and bucket for all values, and is packed exactly if both fit in 14 bits |
| `WeakCull.ChainDistinct` | src/runtime/gc-common.c:1793-1798 | a bucket chain that ends visits no cell twice |
| `WeakCull.WeakTable.CullEntry` | src/runtime/gc-common.c:1794-1863 | one entry: emptied, counted down and recorded if dead, else fixed; the rehash result is true exactly if an address-hashed survivor has moved so far |
| `WeakCull.WeakTable.CullBucket` | src/runtime/gc-common.c:1782-1866 | the same for every cell of the bucket's chain and for no other cell |
| `WeakCull.WeakTable.CullWeakHashTable` | src/runtime/gc-common.c:1868-1904 | over all buckets: pairs, count, the list of culled cells (each dead entry once, with its bucket) and the rehash mark, the last exactly when a surviving address-hashed key moved |
| `BlockQueue.HeadCount` | src/runtime/fullcgc.c:304-306 | the head block's count is zero exactly when the whole queue is empty |
| `BlockQueue.AppendLast` | src/runtime/fullcgc.c:74-77 | storing at the tail of a block with wraparound appends one element to the queue |
| `BlockQueue.TakeHead` | src/runtime/fullcgc.c:79-85 | the element at tail minus count, corrected for wraparound, is the oldest of the queue |
| `BlockQueue.GrowKeeps` | src/runtime/fullcgc.c:61-73 | linking a recycled or fresh block keeps chain, recycler and contents |
| `BlockQueue.RecycleKeeps` | src/runtime/fullcgc.c:85-92 | moving an emptied head block to the recycler keeps contents |
| `BlockQueue.Queue.constructor` | src/runtime/fullcgc.c:235-243 | one empty block is an empty queue, for every block capacity |
| `BlockQueue.Queue.Grow` | src/runtime/fullcgc.c:61-73 | a block is added without changing the queue, a recycled one if there is any |
| `BlockQueue.Queue.Enqueue` | src/runtime/fullcgc.c:56-77 | appends to the FIFO sequence, taking a new page only if no block is left to recycle |
| `BlockQueue.Queue.Dequeue` | src/runtime/fullcgc.c:79-94 | removes and returns the first element of the FIFO sequence |
| `BlockQueue.Queue.EmptyTest` | src/runtime/fullcgc.c:304-306 | what the mark loop tests is emptiness |
| `FullMark.MarkKeeps` | src/runtime/fullcgc.c:198-211 | marking an object with its functions and queueing it unless it is a leaf keeps the tri-colour invariant |
| `FullMark.BlackenKeeps` | src/runtime/fullcgc.c:296-303 | an object whose children are marked may leave the grey set |
| `FullMark.MarkedIsReachable` | src/runtime/fullcgc.c:277-307 | with nothing grey, marked means strongly reachable, and a function's bit is its code object's |
| `FullMark.Marker.MarkObj` | src/runtime/fullcgc.c:174-212 | marks what a pointer keeps alive, for an embedded function its code object, and keeps the tri-colour invariant |
| `FullMark.Marker.TraceObject` | src/runtime/fullcgc.c:296-303 | marks all children of a dequeued object, which then is black |
| `FullMark.Marker.Next` | src/runtime/fullcgc.c:296-298 | takes one object, which stays grey |
| `FullMark.Marker.Drain` | src/runtime/fullcgc.c:296-306 | terminates with the queue empty and the invariant kept |
| `FullMark.Marker.Execute` | src/runtime/fullcgc.c:277-307 | the marked set is exactly the objects strongly reachable from the roots and the static objects; a function's bit is set exactly when its code object's is |
| `FullMark.ReachableIsLeast` | src/runtime/fullcgc.c:277-307 | the marked objects are the least set that roots, static objects and members point into |
| `WeakMark.OnlyLiveMarked` | src/runtime/fullcgc.c:296-306 | with weak tables, whatever the order of the trigger passes, only objects in every closed set are marked |
| `WeakMark.ClosedMeans` | src/runtime/gc-common.c:1574-1590 | a closed set in plain terms: roots, pointers, and for each entry value with key, key with value, by weakness |
| `WeakMark.ExactUnlessOpen` | src/runtime/fullcgc.c:296-306 | for every heap and order: the marked set is exactly the live set if and only if no entry is left waiting for a trigger that has survived |
| `WeakMark.MissedExactlyByRelays` | src/runtime/gc-common.c:1411-1466 | for every state with an empty queue: some order of the trigger table ends the phase with a live object unmarked if and only if all that the surviving triggers liven are leaves and one of these triggers something they do not liven |
| `WeakMark.MarksExactlyLive` | src/runtime/fullcgc.c:296-306 | if no leaf object is both livened by one entry and the trigger of another, the marked set is exactly the live set, whatever the order |
| `WeakMark.LeafRelayMissed` | src/runtime/fullcgc.c:211-211 | for any five distinct addresses, a heap with such a leaf: it is livened without being queued, the loop stops on the empty queue, and a live object stays unmarked |
| `WeakMark.PassQuiet` | src/runtime/gc-common.c:1411-1466 | a pass that leaves the queue empty leaves no surviving trigger, if there is no such leaf |
| `WeakMark.PhaseDrains` | src/runtime/fullcgc.c:296-306 | the loop ends with the queue empty, whatever the order of the passes |
| `WeakMark.PhaseSound` | src/runtime/fullcgc.c:296-306 | every step of the loop keeps the marks inside any given closed set |
| `WeakMark.PhaseQuiet` | src/runtime/fullcgc.c:296-306 | the loop ends with the queue empty and no surviving trigger, if there is no such leaf |
| `Sweep.SweepTheorem` | src/runtime/fullcgc.c:416-445 | sweeping any walkable range leaves it walkable to the same end, live objects word for word, every old object start a start, and what is left of the dead a filler or conses |
| `Sweep.SweptWalk` | src/runtime/fullcgc.c:387-414 | what replaces one object is walkable to exactly its old end |
| `Sweep.ClobberHeadered` | src/runtime/fullcgc.c:387-414 | a filler of the same size on a code page, zero words elsewhere, and no other word changed |
| `Sweep.SweepOne` | src/runtime/fullcgc.c:430-443 | one object of the walk, live or dead |
| `Sweep.SweepRange` | src/runtime/fullcgc.c:416-445 | the whole walk does so for every object, and changes nothing outside the range |
| `ImmobileQueue.PushQueued` | src/runtime/immobile-space.c:489-497 | a new entry overwrites no current entry and becomes the latest |
| `ImmobileQueue.PopQueued` | src/runtime/immobile-space.c:677-684 | dropping the oldest entry loses that entry only |
| `ImmobileQueue.PushIntact` | src/runtime/immobile-space.c:489-497 | enqueueing during a drain never overwrites a captured entry still to be processed |
| `ImmobileQueue.TakeIntact` | src/runtime/immobile-space.c:677-684 | the entry taken is the next captured one even if the queue has grown or overflowed meanwhile |
| `ImmobileQueue.NextPosition` | src/runtime/immobile-space.c:669-692 | the index test ends the drain exactly after the last captured entry |
| `ImmobileQueue.Immobile.constructor` | src/runtime/immobile-space.c:94-98 | an empty queue with nothing grey |
| `ImmobileQueue.Immobile.Enliven` | src/runtime/immobile-space.c:448-498 | a white object turns grey, or black if it has no pointers; every grey object stays queued or overflow is recorded |
| `ImmobileQueue.Immobile.Push` | src/runtime/immobile-space.c:489-498 | stores the entry or records the overflow |
| `ImmobileQueue.Immobile.Visit` | src/runtime/immobile-space.c:687-691 | a grey object turns black with all it points to enlivened; one visited already is skipped |
| `ImmobileQueue.Immobile.DrainOne` | src/runtime/immobile-space.c:677-692 | the body of the drain: one captured entry, and the index that ends the loop exactly after the last |
| `ImmobileQueue.Immobile.TakeOne` | src/runtime/immobile-space.c:677-692 | one captured entry; the count falls unless something was enlivened or the queue has overflowed |
| `ImmobileQueue.Immobile.DrainQueue` | src/runtime/immobile-space.c:668-693 | processes the captured span; either fewer white objects or a smaller count remain |
| `ImmobileQueue.Immobile.FullScan` | src/runtime/immobile-space.c:592-647 | visits every object that was grey, skipping pages without the new-space bit |
| `ImmobileQueue.Immobile.ScavengeNewspace` | src/runtime/immobile-space.c:662-695 | terminates with the queue empty, no grey object, every black object's children live, and nothing live outside any closed set that held the live objects on entry |
| `FixedObjSweep.SweepPage` | src/runtime/immobile-space.c:996-1050 | each slot has the fate its generation gives it, following free index and displacements visits exactly the holes in ascending order, the new mask has exactly the generations kept from the old one and that of the survivors, and an empty mask means a page of zeros with free index 0 |
| `FixedObjSweep.GivenUp` | src/runtime/immobile-space.c:1040-1050 | the mask becomes empty, and the page is given up, exactly if it had no other generation and nothing on it survives |
| `FixedObjSweep.SweepSlot` | src/runtime/immobile-space.c:1008-1036 | one slot: hole relinked, trash zeroed and linked, survivor given its new generation |
| `FixedObjSweep.LinkedChain` | src/runtime/immobile-space.c:1011-1038 | holes that each lead to the next form the chain the allocator follows |
| `FixedObjSweep.EmptyPageIsZero` | src/runtime/immobile-space.c:1037-1050 | on a page of holes only every displacement is 0, so the page can be reused at any spacing |
| `FixedObjSweep.MaskCovers` | src/runtime/immobile-space.c:952-964 | the mask formula covers every survivor and drops the collected generation unless survivors stay in it |
| `FixedObjSweep.SequentialAllocation` | src/runtime/immobile-space.c:377-401 | allocating sequentially from a swept page succeeds on a list of slots exactly when it is a prefix of the holes in order: each hole once, never a live object |
| `FixedObjAlloc.NextInv` | src/runtime/immobile-space.c:257-409 | every atomic step of every thread keeps the invariant |
| `FixedObjAlloc.RunInv` | src/runtime/immobile-space.c:257-409 | so does every interleaving |
| `FixedObjAlloc.AllocationSafe` | src/runtime/immobile-space.c:339-427 | in every state of every run no two calls return the same slot or overlapping ones, a slot won and not yet returned is held by one call only, every slot won is returned or held and was a hole after the sweep, and every free index is slot-aligned or marks the page full despite stale writes |
| `FixedObjAlloc.OneThreadTakesAll` | src/runtime/immobile-space.c:377-408 | while one thread alone works on a page, the slots its calls have returned are a prefix of the page's holes in order, the free index between calls is the next hole or has none at or after it, and the page is marked full only when every hole has been returned |
| `FixedObjAlloc.SweptPageTaken` | src/runtime/immobile-space.c:377-408 | starting from a swept page these are exactly the slots that sequential allocation hands out, its holes in ascending order |
| `FixedObjAlloc.EmptyPageChain` | src/runtime/immobile-space.c:1047-1050 | a page given up as empty has a hole at every slot of whatever spacing it is claimed for |
| `FixedObjAlloc.ReturnKeeps` | src/runtime/immobile-space.c:394-394 | a call returns the slot it holds, which no call has returned before |
| `FixedObjAlloc.SweptIsInitial` | src/runtime/immobile-space.c:996-1056 | swept pages, whatever they hold, are a state from which the allocator may start |
| `FixedObjAlloc.SweptSlot` | src/runtime/immobile-space.c:381-384 | the word read at a slot's offset is that of the hole or object there |
| `FixedObjAlloc.SweepGives` | src/runtime/immobile-space.c:1037-1050 | what sweeping a page ensures makes it such a page |
| `FixedObjAlloc.SpacingStays` | src/runtime/immobile-space.c:270-289 | a claimed page keeps one spacing for the rest of the run |
| `FixedObjAlloc.CompareAndSwapKeeps` | src/runtime/immobile-space.c:381-395 | winning the swap claims a slot nobody has, which the thread then holds; losing it changes nothing shared |
| `FixedObjAlloc.StoreKeeps` | src/runtime/immobile-space.c:387-391 | the free index stored is the end of the slot taken plus the displacement that was in it; however stale, the store keeps the invariant |
| `FixedObjAlloc.ClaimPageKeeps` | src/runtime/immobile-space.c:271-289 | claiming an unclaimed page by compare-and-swap on its attributes keeps the invariant |
| `FixedObjAlloc.SweptChainAligned` | src/runtime/immobile-space.c:1011-1038 | the chain the sweep leaves meets what the allocator assumes |
| `TextSpace.MarkLowered` | src/runtime/immobile-space.c:204-224 | freeing the block that reaches the mark moves it to the end of the highest remaining used block, or to the base |
| `TextSpace.NextIsSuccessor` | src/runtime/immobile-space.c:229-233 | stepping over at most one free block finds the next used block or the sentinel |
| `TextSpace.StartRemoved` | src/runtime/immobile-space.c:225-244 | replacing a freed scan start by that block if it is on the same page, else by none, gives the lowest remaining start of the page |
| `TextSpace.StartAdded` | src/runtime/immobile-space.c:187-190 | lowering the scan start to a new block gives the lowest start of the page |
| `TextSpace.ScanStartIsLowest` | src/runtime/immobile-space.c:516-519 | the recorded offset is that of the lowest used block starting on the page if there is one, else none or the sentinel's |
| `TextSpace.CarveTiled` | src/runtime/immobile-space.c:170-176 | splitting a free block keeps the blocks tiling the pool |
| `TextSpace.MergeTiled` | src/runtime/immobile-space.c:246-246 | freeing with merging keeps the blocks tiling the pool |
| `TextSpace.MergeNeighbours` | src/runtime/immobile-space.c:230-233 | freeing leaves no two free blocks side by side, as the source asserts |
| `TextSpace.Pool.constructor` | src/runtime/immobile-space.c:1249-1255 | an empty pool: no used block, mark at the base, no scan start |
| `TextSpace.Pool.AllocCodeblob` | src/runtime/immobile-space.c:170-198 | whatever block the allocator picks, exactly one new used block appears, and mark and scan starts stay exact |
| `TextSpace.Pool.LowerMark` | src/runtime/immobile-space.c:203-224 | the mark is exact for the blocks without the one to be freed |
| `TextSpace.Pool.MoveScanStart` | src/runtime/immobile-space.c:225-244 | the scan starts are exact for the blocks without the one to be freed |
| `TextSpace.Pool.UnallocCodeblob` | src/runtime/immobile-space.c:200-247 | exactly the one used block goes, and mark and scan starts stay exact, so they are so over any sequence of allocations and frees |
| `TextSpace.Pool.PageScanStart` | src/runtime/immobile-space.c:504-520 | the lowest used block on the page if one starts there; without one, nothing or the sentinel |
| `CoalesceSpec.EqualHashEqual` | src/runtime/hopscotch.c:307-359 | objects equal to the comparator hash equal, for any mixing function |
| `CoalesceSpec.RedirectPreserves` | src/runtime/coalesce.c:118-127 | redirecting a slot to an equal object changes the meaning of no slot, nor what is coalescible |
| `CoalesceSpec.RedirectKeepsTable` | src/runtime/coalesce.c:118-127 | nor the content of any key, so every key keeps the hash it was inserted under |
| `CoalesceSpec.InsertKeepsTable` | src/runtime/coalesce.c:115-117 | an object not found, with its elements settled, becomes a key unlike every other |
| `CoalesceSpec.FindSelf` | src/runtime/coalesce.c:115-120 | looking up a key finds that key itself |
| `CoalesceSpec.KeysCanonical` | src/runtime/hopscotch.c:328-359 | two keys of the same meaning are the same object |
| `CoalesceSpec.SameUnfolding` | src/runtime/coalesce.c:87-129 | words of equal meaning unfold alike to every depth |
| `Coalesce.Coalescer.CoalesceObj` | src/runtime/coalesce.c:87-129 | no slot changes meaning, the slot ends up leading to a key if to anything coalescible, and a slot that did so already changes nothing |
| `Coalesce.Coalescer.CoalesceElements` | src/runtime/coalesce.c:110-114 | the same for every element of a shareable vector; a vector that is a key is left alone |
| `Coalesce.Coalescer.Share` | src/runtime/coalesce.c:115-127 | lookup, then insertion or redirection |
| `Coalesce.Coalescer.CoalesceRange` | src/runtime/coalesce.c:153-204 | any sequence of visited slots: all meanings kept, all visited slots settled; only slots that led to objects that may be shared change, and visited slots that led to alike ones hold the same pointer |
| `Coalesce.ValuesPreserved` | src/runtime/coalesce.c:153-204 | every slot of every object unfolds to any depth to the same tree as before, up to the header flags of shareable vectors |
| `Coalesce.Canonical` | src/runtime/coalesce.c:153-204 | visited slots that led to equal coalescible objects hold the same pointer afterwards |
| `Coalesce.ShareMeans` | src/runtime/coalesce.c:43-72 | what is coalescible, from an object's space, kind, header flags and words alone |
| `Coalesce.OnlySharedMoves` | src/runtime/coalesce.c:97-127 | a slot that changed led to an object that may be shared and leads to another of its kind, alike if without pointers; so one that led to an unflagged vector, an unmanaged object or a symbol holds the same word |
| `Coalesce.AlikeShared` | src/runtime/coalesce.c:115-127 | two visited slots that led to shareable objects of the same kind and words, and for numbers the same header, hold the same pointer afterwards |
| `CoalesceTable.FamilyCompatible` | src/runtime/hopscotch.c:307-359 | comparing by content is an equivalence that the content hash respects, in every heap |
| `CoalesceTable.SameAnswers` | src/runtime/coalesce.c:115-120 | a hopscotch lookup finds a key exactly when the association list does, and the same one |
| `CoalesceTable.TableSurvives` | src/runtime/coalesce.c:87-129 | after any stretch of coalescing the storage of the hopscotch table is still valid for the rewritten heap, with the same keys, no two equal |
| `Arena.GlitchExactly` | src/runtime/arena.c:260-303 | some address makes a request meet the alignment glitch exactly when the arena is not hidable and the request is neither whole double words nor one byte short of them |
| `Arena.NoGlitch` | src/runtime/arena.c:299-303 | a double-word-aligned request never meets it, nor does any in a hidable arena |
| `Arena.AlignedMemorySafe` | src/runtime/arena.c:271-303 | at a double-word-aligned address no request of any size meets it |
| `Arena.StepKeeps` | src/runtime/arena.c:260-380 | every atomic step of every thread keeps the arena invariant |
| `Arena.CheckDecides` | src/runtime/arena.c:330-352 | under the mutex: go on if another thread has added a block, give up exactly if the length plus the request, its own if huge and the growth amount otherwise, exceeds the limit, and else extend by that request |
| `Arena.OnlyCheckGivesUp` | src/runtime/arena.c:346-351 | no other step gives up at the limit |
| `Arena.FitsExactly` | src/runtime/arena.c:328-330 | a thread goes for the mutex exactly when its request does not fit in the block it looks at |
| `Arena.ExtensionInside` | src/runtime/arena.c:271-294 | an extension uses only the memory obtained for it, from behind its header to its end, less what alignment costs |
| `Arena.HugeSpaceAdds` | src/runtime/arena.c:440-442 | a huge block adds the space from its base to its limit to the bytes in use |
| `Arena.NoThreadStuck` | src/runtime/arena.c:323-376 | in every reachable state every thread can take a step unless it waits for a mutex that another thread holds |
| `Arena.SwapKeeps` | src/runtime/arena.c:358-361 | a successful compare-and-swap adds exactly its claim at the free pointer, within the limit; a failed one changes no block |
| `Arena.ExtendKeeps` | src/runtime/arena.c:260-321 | an extension adds its request to the length and to the requests granted, within the limit; a huge block holds its request, a new block is empty |
| `Arena.ReleaseKeeps` | src/runtime/arena.c:118-152 | releasing the blocks of an unused arena returns it to its original length with no request granted, no huge block and no byte in use |
| `Arena.CountIsBetween` | src/runtime/arena.c:431-445 | a count taken while claims go on lies between the true values at its start and its end |
| `Arena.TilesPartition` | src/runtime/arena.c:323-361 | in a tiling every address of the range, and no other, is in exactly one claim |
| `Arena.ArenaSafe` | src/runtime/arena.c:260-380 | over all interleavings: claims partition each block below its free pointer, within its limit; the length is the original size plus all granted requests and within the size limit; huge blocks hold their requests; no thread meets the glitch with a double-word-aligned request |
| `Arena.BytesUsedReported` | src/runtime/arena.c:431-445 | bytes in use are the bytes claimed plus the space of huge blocks, and each report lies between that value at its start and its end |
| `PageTable.DirectExactly` | src/runtime/gencgc-impl.h:645-683 | an offset not clipped is read back exactly if and only if it is a multiple of a double word |
| `PageTable.BlockStored` | src/runtime/gencgc-impl.h:645-660 | the pages of a page-aligned block of any length, each coded from its own offset, form a table the accessor can read |
| `PageTable.MaxOneNeverReturns` | src/runtime/gencgc-impl.h:662-674 | with a maximum code of 1 the lookback loop reads the maximum in every round, so never leaves a clipped page; the accessor needs a maximum of 3 or more |
| `PageTable.StepBack` | src/runtime/gencgc-impl.h:668-673 | one step back from a clipped page lands on a page of the same block with the offset that much smaller |
| `PageTable.SetPageScanStartOffset` | src/runtime/gencgc-impl.h:645-660 | stores the clipped code of the offset at one page |
| `PageTable.ScanStartOffsetIterated` | src/runtime/gencgc-impl.h:662-674 | the iterated lookback terminates with the true offset, for every odd maximum of 3 or more |
| `PageTable.PageScanStartOffset` | src/runtime/gencgc-impl.h:676-683 | the accessor returns the true offset of every page, clipped or not |
| `PageTable.StoreCorefilePtes` | src/runtime/coreparse.c:1906-1921 | each saved entry packs the true offset with the type, and the words used with the single-object bit |
| `PageTable.LoadOne` | src/runtime/coreparse.c:1244-1263 | one entry decoded into the page table |
| `PageTable.LoadCorefilePtes` | src/runtime/coreparse.c:1236-1267 | every entry decoded, in chunks of any size, free pages left alone, and the bytes summed |
| `PageTable.FlagsSurvive` | src/runtime/coreparse.c:1246-1250 | the type byte survives saving and loading exactly when it has no bit outside the three type bits and the single-object flag |
| `PageTable.SaveLoadRoundTrip` | src/runtime/coreparse.c:1236-1267 | saving a closed page table and loading it keeps type, single-object flag, words used and scan start of every page, puts pages in use in the pseudo-static generation, and the bytes counted are those in use |
| `ThreadPool.StepKeeps` | src/runtime/gc-thread-pool.c:14-74 | every atomic step of the caller and of the workers keeps the pool invariant |
| `ThreadPool.EachCallRunsOnceEverywhere` | src/runtime/gc-thread-pool.c:60-74 | whenever no call is in progress, every worker and the caller have run exactly the actions of all calls, once each and in order, no worker is inside an action and all semaphores are zero |
| `ThreadPool.OnlyTheCurrentAction` | src/runtime/gc-thread-pool.c:14-26 | a worker is never inside any action but the one being called, and never calls the null action |
| `ThreadPool.StepProgresses` | src/runtime/gc-thread-pool.c:60-74 | every step but the start of a call lowers a bound on the steps left |
| `ThreadPool.SomeStepEnabled` | src/runtime/gc-thread-pool.c:60-74 | while a call is in progress some thread can take a step |
| `ThreadPool.CallsReturn` | src/runtime/gc-thread-pool.c:68-74 | no schedule makes a call hang: a run without new calls is bounded, and when no thread can go on the call has returned |
| `Heapsort.RootIsGreatest` | src/runtime/gc-common.c:2815-2829 | the root of a heap is its greatest element |
| `Heapsort.SwapDown` | src/runtime/gc-common.c:2818-2828 | swapping the root with its larger child moves the one violation of the heap order down a level |
| `Heapsort.SettleOne` | src/runtime/gc-common.c:2844-2848 | swapping the root behind the heap and sifting settles one more element |
| `Heapsort.SiftDown` | src/runtime/gc-common.c:2815-2829 | restores the heap on the range, permutes only within it |
| `Heapsort.Heapify` | src/runtime/gc-common.c:2831-2838 | makes a heap of any array, of length 0 and 1 too, with division that truncates toward zero |
| `Heapsort.HeapsortWords` | src/runtime/gc-common.c:2840-2849 | leaves any array a sorted permutation of its input |

## Left out

- Hopscotch.Table.Insert: takes a bound on the number of resize attempts and reports when it is used up; the source retries without bound, and for an arbitrary hash function nothing makes that loop end.
- Hopscotch.Table.ResizeUp: takes the same bound.
- FixedObjAlloc.OneThreadTakesAll: for a page with one thread at work; with several, a stale free index can leave holes behind until the next sweep, as the source's own example shows, and only AllocationSafe holds.
- Hopscotch.Table.Put: takes the same bound, for the insertion it may make.
- Hopscotch.Table.Relayout: the halved layout gets arrays of its own with the contents of the old storage, since Dafny arrays cannot overlap; the source reinterprets one block of memory.
- WeakMark.MarksExactlyLive: a sufficient condition on the heap alone; the exact conditions, which involve the order of the trigger table, are in `ExactUnlessOpen` and `MissedExactlyByRelays`.
- Coalesce.Coalescer.CoalesceRange: visits a given sequence of slots; the walk that finds them (which words of which object kinds are boxed, encoded symbol names) is not modelled.
- Copying.Collector.CullEntry: keeps neither the table's count of entries nor its rehash mark, and takes the chains of the buckets as given; all three are in WeakCull.WeakTable, whose walk `CollectSpec.ChainWalkCulls` joins to this one.
- The hopscotch table's cached storage allocator, value widths, `hopscotch_get_ref` and statistics.
- Coalesce.Coalescer.Share: looks keys up in an association list, under the hash each had on insertion, instead of calling `Hopscotch.Table`; `CoalesceTable` shows that the answers are the same and the table stays valid. The fatal check for pointers from read-only to dynamic space is not modelled.
- Object layout: widetags, layouts, bitmaps, code fixups and return addresses are reduced to sizes and children.
- Weak pointers, weak vectors and finalizers; hash tables that are not weak.
- Moving keys between hash functions in Lisp tables: the rehash mark is modelled, the rehash is Lisp code.
- Generations, pinning, card marking and page protection of the generational collector.
- The text-space branch of the sweep, which pushes dead code onto a free list, and sweeping of large-object pages.
- ImmobileQueue.Immobile.FullScan: one scan in address order stands for the loop over fixed-object pages and the loop over text pages, so the scan starts of text pages and blobs that cross pages are not part of it.
- Binary search for code blobs loaded from the core; generation masks of text pages.
- `uw_bytes_wasted` and the choice between refilling a thread's region and a discrete claim in `handle_arena_alloc`; hiding of arenas; the build in which Lisp decides about extensions.
- Reading the page table from a file descriptor, and adjusting a heap mapped at another address.
- Creation of collector threads and signal masks; more than one caller of the pool at a time.
- `int` overflow of heap indices in the heapsort, which needs an array of more than 2^30 words.
- Defragmentation and incremental compaction of any space.
