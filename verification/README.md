# Verification of bort's object model

bort is an object model for Rust built around an archetype database. Entities carry tags and components; each
entity has a *virtual* archetype (the tag set it wants) and a *physical* archetype (where its components are
laid out), and a flush brings the second in line with the first. This project models that database and the
structures under and around it in Dafny, and proves what they promise.

How the pieces build on each other:

| file | what it models |
|---|---|
| `Iters.dfy`, `Arena.dfy` | the merging and filtering iterators, sorting; the generational free-list arena |
| `SetMap.dfy` | the hash-consed set map: `KeyGraph` is the reference graph of key sets and edges, `SetMaps` the imperative map that refines it for any hash function |
| `Collector.dfy` | what recursive archetype removal frees, as a property of the graph; the deletion loop over a hash set |
| `HeapSpace.dfy`, `BlockAllocator.dfy` | component heaps, indirectors and their free list; the bitmask block allocator |
| `Archetypes.dfy`, `Layout.dfy` | the dense entity layout of one archetype; the mirror between entity records and cells, and what each step of a flush does to it |
| `StorageViews.dfy`, `Storage.dfy`, `StorageTable.dfy` | one component storage as a value, the same updated in place, and all storages by type |
| `DbState.dfy`, `TagJoin.dfy`, `ArchetypeIndex.dfy` | counts, the tag index and its merge-join, archetype lookup and garbage collection |
| `FlushState.dfy`, `DbSteps.dfy`, `Database.dfy` | what the phases of a flush and the single operations keep, and the database with its operations |
| `Guarantees.dfy`, `FlushPanics.dfy` | what the invariant and a flush mean for those who use them; a run that ends in a panicking flush |
| `Traversal.dfy`, `Query.dfy` | the block traversal and queries over all entities with given tags |
| `OrderedBehaviors.dfy`, `Initializers.dfy` | the two schedulers |
| `BorrowState.dfy` | the packed borrow state of sixteen cells |
| `Events.dfy` | event lists and the loop that drains two of them into each other |

Code that updates things in place is modelled by classes and methods with the same fields and branches, and each
such method is proved against a function or relation on values, about which the lemmas speak. `DbRoot.Valid` is
the invariant of the database: every public operation requires and restores it, so it holds after every run.
Hash maps are iterated in arbitrary order: a method that picks "any" element must be right for all of them.

Where the code does something else than one might expect, the theorems follow the code:

* The deletion loop at the end of a flush (`src/database.rs:1035-1045`) visits a hash set, and the recursion of one
  iteration may free an archetype that is still to be visited; looking that up panics. `Guarantees.ChainMeansPanic`
  gives the exact condition under which some iteration order does, in terms of reachability before the flush, and
  `FlushPanics.RunToPanic` a short run of public calls that gets there; `Flush` reports the panic as one of its
  outcomes.
* `try_borrow_all_mut` stores the byte for "one reader" (`src/core/cell.rs:1179`), so single readers are admitted
  beside the group writer (`BorrowStates.GroupWriterAdmitsReaders`; `BorrowStates.ExcludesIff` says which bytes
  would exclude them), and dropping the group writer stores the neutral byte whoever is still out
  (`src/core/cell.rs:1272-1276`). If the readers are dropped first the cell is clean again; if not, it ends below
  neutral by their number (`BorrowStates.CleanIffReadersWentFirst`). The class therefore has two invariants:
  `Valid`, while no group writer was out, and `Tracked`, which also accounts for those.
* The slow path of a query drops the handler's request to stop (`src/query.rs:1278`, `src/query.rs:1290`), so
  traversal is stated for handlers that always continue.
* Appending one ordered list to another (`src/behavior.rs:954-960`) neither merges the dependency table nor drops
  the cached order; ordered lists are therefore those built by pushes.

## Model

| member | source | states |
|---|---|---|
| `Databases.DbRoot.Flush` | src/database.rs:719-1048 | Refused, changing nothing, exactly while a query holds the guard. Otherwise: every live entity ends laid out in the archetype it wants; no handle, value or owner of any component changes; both work lists are empty; the whole database invariant holds again; it panics exactly if the order in which the hash set of emptied archetypes is visited reaches one that an earlier iteration freed; without a panic exactly the unwanted archetypes that held entities or led to others, and that nothing kept needs, are gone |
| `Guarantees.FlushIsInvisible` | src/database.rs:719-1033 | For every entity and every component type, the handle given out before a flush is the one given out after it, and it reads the same value |
| `Guarantees.FlushedLayoutIsExact` | src/database.rs:734-1021 | After a flush an entity is in a used cell of a non-root archetype if and only if it is alive, wants that archetype and its record names exactly that cell; all heaps but the last are used up, the last one at least in part; the first heap has 128 cells and each further one twice as many as the one before |
| `Guarantees.ComponentHeapsDouble` | src/database.rs:1367-1375 | The component heaps of an archetype have 128, 256, 512 and so on slots like its entity heaps, and there are no more of them |
| `Guarantees.ComponentIsAtItsPlace` | src/database.rs:1128-1220 | At every public state a component whose type the physical archetype manages sits in the external heap at exactly its entity's heap and slot, in a heap with as many slots as the entity heap; any other component holds a live reservation in an anonymous block |
| `Guarantees.DeletedByFlush` | src/database.rs:1035-1045 | An archetype is deleted by a flush if and only if nobody wants it, no archetype it leads to stays, and it held entities before or was a stepping stone |
| `Guarantees.KeptByFlush` | src/database.rs:1035-1045 | Said without the recursion: a flush that does not panic keeps an archetype if and only if add edges lead from it, in any number of steps, to a wanted archetype or the root |
| `Guarantees.ChainMeansPanic` | src/database.rs:1036-1045 | The exact condition for the deletion loop to be unsafe, on the state before the flush: some iteration order of the archetypes to be deleted panics if and only if one of them leads to others and nothing it reaches is wanted |
| `Guarantees.PanicMeansChain` | src/database.rs:1036-1045 | No flush panics without such a chain, whatever else its hash set holds |
| `Guarantees.FlushWithoutChain` | src/database.rs:719-1048 | So a caller who sees none gets a flush that succeeds (or is refused while a query runs), with every component intact and the invariant restored |
| `Guarantees.PanickingDatabase` | src/database.rs:1036-1045 | A database state satisfying every invariant, with two dead entities laid out under the tags 5, and 5 and 6: deleting the larger archetype first panics, the smaller first does not |
| `FlushPanics.RunToPanic` | src/database.rs:404-1048 | Such a state is reached from every database without entities, dead ones pending or running queries, by successful calls: two spawns, three tags, a flush and two deaths |
| `FlushPanics.FirstFlush` | src/database.rs:719-1048 | While nothing is laid out yet a flush always succeeds, and no archetype or edge goes |
| `FlushPanics.DeadLeaveChain` | src/database.rs:1036-1045 | Once everybody is dead, a dead entity whose cell is in a tagged archetype that leads to another makes the next flush unsafe |
| `Guarantees.PanicMeansHazard` | src/database.rs:1036-1045 | A panicking flush had an archetype to delete that also goes because of the others |
| `Collector.DeletionCanPanic` | src/database.rs:1036-1045 | In the graph of the root, {5} and {5, 6}, of which both non-root entries are to be deleted, one order panics and the other does not |
| `Collector.HazardIff` | src/database.rs:1050-1103 | Where every entry is in use, to be deleted or a stepping stone, the recursion frees one of the entries to be deleted because of the others if and only if one of them leads on and everything it reaches is unused |
| `Collector.LeavesIff` | src/database.rs:1050-1103 | There, what is left after all deletions is what reaches something in use |
| `Databases.DbRoot.PurgeDead` | src/database.rs:734-852 | All dead entities leave: afterwards records and cells mirror each other with no dead entity left, and no live entity changed archetypes or components |
| `Databases.DbRoot.PurgeOne` | src/database.rs:735-852 | One dead entity leaves its archetype exactly once, by tail popping or by swap-fill with a live entity; everybody else's cell stays mirrored |
| `Databases.DbRoot.PruneTail` | src/database.rs:744-788 | Dead entities at the back are popped until a live last entity turns up, which is what it reports, or the archetype is empty |
| `Archetypes.SkipTestsAreExact` | src/database.rs:790-805 | The two skip tests hold precisely when the dead entity's position was already popped |
| `Layout.FillDeadKeepsMirror` | src/database.rs:807-834 | Swap-fill of a dead entity's cell with the live last entity keeps the mirror between records and cells and settles exactly that dead entity |
| `Layout.PopDeadKeepsMirror` | src/database.rs:764-786 | Popping a dead last entity keeps the mirror; entries whose cell is popped stay recognisable |
| `Layout.ForgetKeepsMirror` | src/database.rs:790-805 | An entry whose cell is gone may be skipped |
| `Databases.DbRoot.MoveAlive` | src/database.rs:854-1021 | Every dirty live entity moves to the archetype it wants; afterwards no live entity's archetypes differ and the mirror holds |
| `Databases.DbRoot.MoveTarget` | src/database.rs:862-1020 | Exactly one entity changes archetypes, to the one it wants, with the mirror, the storages and every handle intact |
| `Databases.DbRoot.Enter` | src/database.rs:872-944 | The entity is recorded at the next position of its new archetype (none in the root), and its components follow to it |
| `Databases.DbRoot.Leave` | src/database.rs:946-1020 | The hole it left is closed by popping it, or by moving the last entity, with its components, into it |
| `Layout.EnterKeepsMirror` | src/database.rs:876-921 | Appending to the destination keeps the mirror everywhere but at the old cell |
| `Layout.PopHoleKeepsMirror` | src/database.rs:958-1018 | If the hole was the last cell, popping it restores the mirror |
| `Layout.FillHoleKeepsMirror` | src/database.rs:958-1018 | Otherwise the last entity is alive and recorded there, and moving it into the hole restores the mirror |
| `Layout.NoDeadMeansBijection` | src/database.rs:86-112 | Without dead entities the occupied cells of a non-root archetype are in bijection with the live entities in it; the root has none |
| `Layout.PlacesAreDistinct` | src/database.rs:86-105 | No two live entities share a cell |
| `Archetypes.PushedOutcome` | src/database.rs:888-914 | Appending fills the next cell and changes no other; there is a new heap exactly if the very last cell was taken, of 128 cells if it is the first and twice as many as in the last one otherwise; no other heap changes its size |
| `Archetypes.HeapsAreDoubling` | src/database.rs:888-914 | In every archetype the first heap has 128 cells and each further one twice as many as the one before |
| `Archetypes.PoppedOutcome` | src/database.rs:1002-1018 | Popping vacates exactly the last cell and drops a heap exactly when it becomes empty |
| `Databases.DbRoot.TruncateAll` | src/database.rs:1023-1033 | Afterwards no storage has more component heaps for an archetype than that has entity heaps |
| `DbState.NoHeapsWhereNoEntities` | src/database.rs:1023-1033 | So a freed archetype, and whoever reuses its index, leaves no component heaps behind |
| `FlushState.ReconciledIsOk` | src/database.rs:734-1033 | Before the deletion loop everything but the absence of unused archetypes is restored; the candidates for deletion are exactly the unwanted archetypes that held entities, besides some in use |
| `FlushState.BusyWhenClean` | src/database.rs:1036-1041 | After the moves an archetype is in use exactly if it is the root or somebody wants it |
| `FlushState.DeletionIsOk` | src/database.rs:1035-1045 | What the deletion loop takes leaves records, cells, counts and storages in order; it panics exactly at a member already gone |
| `Databases.NewDatabase` | src/database.rs:364-383 | A new database satisfies the invariant and is empty |
| `Databases.DbRoot.Spawn` | src/database.rs:404-424 | A fresh entity starts in the root, virtually and physically, with the empty component list; the invariant is kept |
| `Databases.DbRoot.Despawn` | src/database.rs:426-463 | Fails exactly on dead entities; otherwise the entity is dead at once, its cell (if any) goes on the dead list with its exact position, every other entity wants the tags it wanted, archetypes that became unused are gone (none if it was laid out as it wanted), and storages are untouched |
| `Databases.DbRoot.Destroy` | src/entity.rs:380-387 | Each component the entity had is destroyed exactly once, in the order of its component list, with the value it had, no storage maps the entity any more, and nobody else's components or tags change |
| `Databases.DbRoot.RunDestructors` | src/database.rs:1552-1565 | The component list names exactly the components to drop; each destructor removes one, in the order of the list |
| `Databases.DbRoot.TagCommon` | src/database.rs:490-589 | Fails exactly on dead entities, changing nothing; otherwise the set of tags the entity wants is the old one plus or minus the tag, nobody else's changes, no layout or component changes, counts, dirty list, tag index and graph stay in order, and after adding a new tag the archetype it wanted before leads to another |
| `Databases.DbRoot.Relink` | src/database.rs:501-570 | Both virtual counts are adjusted (the root is not counted), and the entity is queued exactly if it became dirty |
| `Databases.DbRoot.IsTagged` | src/database.rs:591-621 | The self-loop test tells whether the virtual (or the physical) archetype has the tag |
| `DbState.CountsAfterDeath` | src/database.rs:445-451 | After a death each count is again the number of live entities that want the archetype |
| `DbState.CountsAfterRetag` | src/database.rs:504-551 | Likewise after a change of tags |
| `DbState.DeathKeepsMirror` | src/database.rs:430-443 | The dead list has every dead entity that still occupies a cell, at its exact position |
| `Databases.DbRoot.InsertComponent` | src/database.rs:1128-1220 | Fails exactly on dead entities, changing nothing anybody sees; otherwise the component reads as the value, its handle is the one returned (the old handle if it existed, whose old value is returned), no other component or handle changes, and the component list has exactly the types present |
| `Databases.DbRoot.RemoveComponent` | src/database.rs:1222-1266 | Afterwards the component is gone, its old value is what is returned, nothing else changed, and a live entity's list lost the type; it fails exactly on dead entities |
| `Databases.DbRoot.RemoveAt` | src/database.rs:1222-1266 | The same for an entity that is already dead but whose components are still stored, which is how destructors run |
| `Databases.DbRoot.GetComponent` | src/database.rs:1268-1273 | The handle given out for the component, if the entity has it |
| `DbSteps.InsertionIsOk` | src/database.rs:1149-1217 | Inserting in the storage and extending the list together keep the agreement between lists and storages |
| `DbSteps.RemovalIsOk` | src/database.rs:1228-1266 | Removing from the storage and shortening the list together keep it, also when the entity is dead and has no list |
| `ArchetypeIndexes.ArchetypeIndex.CanRemove` | src/database.rs:1050-1075 | True exactly for archetypes that are not the root, have no entities and no virtual count, and lead to no other archetype |
| `ArchetypeIndexes.ArchetypeIndex.RecRemove` | src/database.rs:1077-1103 | Terminates; frees exactly the archetype and the stepping stones all of whose destinations go; never the root or anything in use; tag index and graph are kept in order |
| `ArchetypeIndexes.ArchetypeIndex.RemoveInOrder` | src/database.rs:1035-1045 | The deletion loop for any iteration order: it stops exactly where it meets an archetype that is gone, having removed what was asked for so far |
| `Collector.CollectionIsUnique` | src/database.rs:1077-1103 | What a sequence of removals frees is determined by the graph and by what was asked for, whatever the order |
| `Collector.CollectOneMore` | src/database.rs:1077-1103 | Removing one more archetype, in whatever graph is left, extends the collection by what goes from there |
| `Collector.CollectFromPredecessors` | src/database.rs:1098-1102 | Freeing an archetype and recursing into the predecessors that became removable frees exactly what its removal entails |
| `Removal.NextPredecessor` | src/database.rs:1098-1102 | While the recursion runs, the next predecessor has not been freed, and is as removable as when the loop began |
| `Collector.SomeOrderPanicsIff` | src/database.rs:1036-1045 | For any graph: some order panics if and only if some member would go on account of the other members alone, so orders can be reduced to sets |
| `Collector.FewestKeysFirstNeverPanics` | src/database.rs:1036-1045 | Visiting archetypes with fewer tags first would always be safe |
| `DbState.CollectionLeavesNoIdle` | src/database.rs:1036-1045 | Removal leaves no archetype without entities, virtual count and onward edges, besides those not asked for |
| `DbState.FreedArchesKeepMirror` | src/database.rs:1084 | Freeing unused archetypes disturbs no record, cell or count |
| `ArchetypeIndexes.ArchetypeIndex.Intersect` | src/database.rs:636-707 | Reports exactly the archetypes that have all the tags, once each, in ascending order; nothing for an empty list of tags |
| `TagJoin.Join` | src/database.rs:656-707 | The merge-join of ascending lists yields exactly their common elements, in ascending order |
| `TagJoin.ProbeAll` | src/database.rs:675-694 | One probe of the other iterators: a match exactly if all have the element; giving up only when one has nothing left from there on |
| `ArchetypeIndexes.ContainersAreExact` | src/database.rs:514-524 | The containers of a tag are exactly the live archetypes that have it |
| `ArchetypeIndexes.TaggedKeepsIndex` | src/database.rs:517-523 | Adding an archetype under one of its tags keeps each list without repeats, and sorted where flagged |
| `ArchetypeIndexes.UntaggedKeepsIndex` | src/database.rs:1086-1096 | So does taking it out; a tag without containers loses its entry |
| `ArchetypeIndexes.ArchetypeIndex.Lookup` | src/database.rs:513-542 | The archetype with the changed tag set, created and indexed if it did not exist; it manages exactly the types of its tags; existing archetypes are untouched |
| `ArchetypeIndexes.ManagedIsSorted` | src/database.rs:266-282 | The sorted list and the set of managed types have the same elements |
| `ArchetypeIndexes.ArchetypeIndex.ManagesItsTypes` | src/database.rs:266-282 | Every archetype of the index manages a type if and only if one of its tags carries it, so purely virtual tags add none; its sorted list has a type once for each tag that carries it |
| `Storages.Storage.MoveEntity` | src/database.rs:1343-1452 | Brings a component in line with its entity's new layout, whatever mix of anonymous and external the old and the new one are; every handle keeps its owner and value |
| `Storages.Storage.Insert` | src/database.rs:1140-1219 | The component reads as the value; a new one sits where the layout prescribes; the others are untouched; component heaps grow to match entity heaps |
| `Storages.Storage.Remove` | src/database.rs:1228-1245 | The mapping, the value and the anonymous reservation are released; the others are untouched |
| `Storages.Storage.Truncate` | src/database.rs:1454-1471 | Drops exactly the heaps past the given count, keeping the others in order and every other archetype's list, and forgets a list that is empty; no component notices |
| `Storages.HandlesAreDistinct` | src/database.rs:147-169 | Different entities never share a slot handle |
| `StorageViews.RelocationKeepsInv` | src/database.rs:1392-1450 | Swapping a component into a free spot keeps the storage invariant for the new placement, and no handle notices |
| `StorageViews.UnplacedSpotIsFree` | src/database.rs:1377-1390 | The target slot of a move is ownerless, as its contract asks |
| `StorageViews.HeapAddedKeepsInv` | src/database.rs:1367-1375 | A component heap appended to an archetype's list has the size of the entity heap of the same number, and nobody notices |
| `StorageViews.LastHeapDroppedKeepsInv` | src/database.rs:1462-1470 | A heap past the entities of its archetype may be dropped without losing a component |
| `StorageViews.SlotReservedKeepsInv` | src/database.rs:1199-1205 | A newly reserved anonymous slot has no owner |
| `StorageViews.SlotReleasedKeepsInv` | src/database.rs:1241-1245 | A released slot, even if its block is destroyed with it, takes nobody's component along |
| `StorageViews.AttachedKeepsInv` | src/database.rs:1187-1217 | Writing value and owner into a free spot and mapping the entity to it keeps owners the inverse of mappings |
| `StorageViews.DetachedKeepsInv` | src/database.rs:1228-1239 | So does unmapping the entity and vacating its slot |
| `StorageTables.StorageTable.MoveEach` | src/database.rs:917-943 | Moving the components of every type either archetype manages settles all storages for the new layout |
| `StorageTables.UnmanagedStays` | src/database.rs:917-920 | A component neither archetype manages is anonymous and need not move |
| `StorageTables.StorageTable.GetStorage` | src/database.rs:1107-1126 | One storage per type, created empty on first use |
| `SetMaps.SetMap.constructor` | src/util/set_map.rs:60-80 | A set map begins with just its root, the empty set |
| `SetMaps.SetMap.LookupCommon` | src/util/set_map.rs:87-251 | For any hash function: leads to the one entry whose key set is the base's plus (or minus) the key, created if and only if there was none; no entry's keys change; the memoised edges are those of the reference graph |
| `SetMaps.SetMap.Find` | src/util/set_map.rs:118-136 | Finds an entry exactly if one with these keys exists, whatever collides |
| `SetMaps.SetMap.Remove` | src/util/set_map.rs:253-289 | Takes exactly one entry out, with every edge to it |
| `SetMaps.HasKeyIsMembership` | src/util/set_map.rs:356-370 | The self-loop test is exact |
| `KeyGraph.WithNodeKeepsInv` | src/util/set_map.rs:145-201 | Creating an entry keeps: one entry per key set, add edges mean union, remove edges difference, self-loops witness membership, every other edge doubly linked, no dangling edge |
| `KeyGraph.WithEdgeKeepsInv` | src/util/set_map.rs:105-143 | So does memoising an edge to an existing entry, self-loops included |
| `KeyGraph.UnlinkedKeepsInv` | src/util/set_map.rs:253-289 | So does removing an entry: because of double linking no edge to it is left |
| `KeyGraph.SelfLoopIsMembership` | src/util/set_map.rs:356-370 | An add edge is a self-loop exactly if its key is in the set |
| `SetMaps.ReferencersOf` | src/util/set_map.rs:262-286 | The edges of a removed entry name exactly the entries that have an edge to it |
| `Heaps.HandlesFollowValues` | src/core/heap.rs:170-207 | Every handle reads the same before and after a swap, whichever two slots of whichever heaps are swapped |
| `Heaps.SwapKeepsInv` | src/core/heap.rs:170-207 | A swap keeps every indirector in exactly one slot or once in the free list, and slot i pointing at block i / 16, lane i % 16 |
| `Heaps.HeapSpace.SwapSlots` | src/core/heap.rs:170-207 | Two slots change places; every handle keeps its owner and reads the same value |
| `Heaps.HeapSpace.NewHeap` | src/core/heap.rs:80-146 | A heap takes free indirectors and leaves every slot in use alone; if the free ones fall short, as many new ones are leaked as are missing, but at least 128, and otherwise none |
| `Heaps.HeapSpace.DropHeap` | src/core/heap.rs:258-283 | Exactly the dropped heap's indirectors return to the free list, without owner or target |
| `Heaps.HeapSpace.ClearSlots` | src/core/heap.rs:223-227 | Takes owner and value from each of the heap's own slots and from no other |
| `Heaps.HeapSpace.SetPair` | src/core/heap.rs:440-452 | Writes owner and value through one slot, returns what it read before, and leaves all other handles alone |
| `Heaps.HeapSpace.DirectSlot` | src/core/heap.rs:600-617 | The position a handle leads to holds that very handle |
| `Heaps.DecomposeIsInverse` | src/core/cell.rs:761-767 | Block and lane determine the index, and the blocks suffice for the length without a spare block |
| `Blocks.BlockAllocator.Alloc` | src/util/block.rs:29-66 | Hands out the lowest free slot of the hammered block, or else of the block listed last, and of a new block only if every block is full; no other reservation changes |
| `Blocks.BlockAllocator.Dealloc` | src/util/block.rs:68-104 | Frees exactly one reservation; a block is destroyed with its heap exactly if nothing in it is outstanding and it is not the hammered one |
| `Blocks.TakeKeepsInv` | src/util/block.rs:44-65 | Each block stays exactly one of hammered, full, or listed at its stored index |
| `Blocks.RelistKeepsInv` | src/util/block.rs:76-84 | A full block that loses a slot is listed again |
| `Blocks.UnlistedKeepsInv` | src/util/block.rs:86-103 | Swap-remove from the list keeps stored indices the inverse of the list |
| `Blocks.HammerListed` | src/util/block.rs:30-42 | The last listed block may be made the hammered one |
| `Arena.FreeListArena.Alloc` | src/util/arena.rs:306-334 | Never a pointer in use; the slot freed last whose generations are not used up, under its next generation, or a new slot if there is none |
| `Arena.FreeListArena.Dealloc` | src/util/arena.rs:291-301 | Yields the value and frees exactly this pointer, which is the next to be reused; no generation changes |
| `Arena.FreeListArena.Get` | src/util/arena.rs:276-281 | The value that was stored |
| `Iters.IterMerger.Next` | src/util/iter.rs:61-84 | Yields the next element of the merge and leaves the rest |
| `Iters.MergedElems` | src/util/iter.rs:61-84 | A merge has the elements of both iterators |
| `Iters.MergedKeepsAll` | src/util/iter.rs:61-84 | Each as often as in both together |
| `Iters.MergedIsSorted` | src/util/iter.rs:61-84 | Merging sorted iterators is sorted |
| `Iters.MergedDisjointIsAscending` | src/util/iter.rs:61-84 | Merging disjoint strictly ascending lists is strictly ascending, which is how a key list is extended |
| `Iters.DeduplicatedPicks` | src/util/iter.rs:97-113 | What is left is exactly the last element of each run of equal neighbours, in order |
| `Iters.FilterDuplicates` | src/util/iter.rs:97-113 | Computes that |
| `Iters.DeduplicatedIsAscending` | src/util/iter.rs:97-113 | On a sorted iterator that leaves each element exactly once |
| `Iters.WithoutPicks` | src/util/iter.rs:115-127 | Filtering one element out leaves exactly the others, in order |
| `Iters.WithoutIsDifference` | src/util/iter.rs:115-127 | On a strictly ascending list that is set difference |
| `Iters.EqIter` | src/util/iter.rs:31-54 | True exactly on equal sequences |
| `Iters.AscendingIsCanonical` | src/util/set_map.rs:125-135 | A sorted key list is determined by its set, so comparing lists compares sets |
| `Queries.Query` | src/query.rs:1211-1297 | With no dead entity pending, and if every entity laid out with the tags owns the queried components, the handler is shown exactly the live entities laid out with all the tags, each once, by ascending archetype, then heap, then slot, with the very handles given out for their components |
| `Queries.FlushedFindsWanted` | src/query.rs:1211-1297 | Right after a flush these are the live entities that want all the tags |
| `Queries.QueryArchetype` | src/query.rs:1230-1294 | One matching archetype: its occupied positions in order, with entity and slots of that very position |
| `Queries.StockedSlotIsHandle` | src/query.rs:1232-1237 | The slot at an entity's own position in the component heaps is the handle of its component |
| `Queries.StockedHeapsMatch` | src/query.rs:1232-1237 | Entity heaps and component heaps zip one to one |
| `Queries.MatchesAreStocked` | src/query.rs:1225-1228 | Every archetype in the intersection manages the queried types and is fully stocked |
| `Traversal.VisitArchetype` | src/query.rs:1236-1293 | The blocks visited are exactly the occupied positions, each once, earlier heaps first and within a heap earlier slots |
| `Traversal.VisitHeap` | src/query.rs:1238-1292 | Full blocks and leftover, with the "really big" length for all heaps but the last, visit exactly the occupied prefix |
| `Traversal.PositionsAre` | src/query.rs:1236-1292 | The positions visited are exactly the occupied ones |
| `Traversal.PositionsAreDistinct` | src/query.rs:1236-1292 | None is visited twice |
| `Traversal.PositionsAreInOrder` | src/query.rs:1236-1292 | Heap by heap, and slot by slot |
| `OrderedBehaviors.OrderedBehaviorList.Push` | src/behavior.rs:974-1020 | Registers a behaviour with its dependencies and what it resolves, keeps the table in order and forgets the sorted list |
| `OrderedBehaviors.OrderedBehaviorList.Drive` | src/behavior.rs:1030-1110 | There is an order of all behaviours, each once, with every resolver of a key before every behaviour that depends on it, and the behaviours called are the registered ones in that order; it panics if and only if there is no such order; the order is computed once |
| `OrderedBehaviors.Toposort` | src/behavior.rs:1031-1105 | A permutation in which resolvers come before dependents, or the news that there is none; no counter goes below zero |
| `OrderedBehaviors.BlockedHaveNoOrder` | src/behavior.rs:1092-1102 | If something is still blocked at the end, no order of all behaviours respects the keys |
| `OrderedBehaviors.AllRanInOrder` | src/behavior.rs:1063-1090 | If nothing is, everything ran, in order |
| `OrderedBehaviors.Satisfy` | src/behavior.rs:1079-1088 | Satisfying a key makes ready exactly the behaviours whose last open dependency it was |
| `OrderedBehaviors.OpenAfter` | src/behavior.rs:1083-1084 | A key named several times counts down several times |
| `OrderedBehaviors.WithResolverKeepsTable` | src/behavior.rs:984-997 | The number of resolvers of a key is exact |
| `OrderedBehaviors.WithDependentKeepsTable` | src/behavior.rs:999-1016 | The dependents of a key are exact, with repetitions |
| `Initializers.InitializerBehaviorList.Run` | src/behavior.rs:1159-1211 | Exactly the handlers ran whose dependencies are there at the end, each once and after all its dependencies were there; those without dependencies first, and those with the same dependencies in the order of their registration; the components at the end are the least set that has the initial ones and the effect of every handler whose dependencies it has, and it panics exactly if some dependency is not in that set |
| `Initializers.Pass` | src/behavior.rs:1182-1209 | A pass shrinks the pending types, or changes nothing because none of them is there |
| `Initializers.StuckIsLeast` | src/behavior.rs:1204-1209 | When a pass finds nothing, nothing more is to be had |
| `Initializers.AfterIsNeeded` | src/behavior.rs:1159-1202 | Nothing is ever present that is not forced to be |
| `Initializers.LeastIsUnique` | src/behavior.rs:1172 | So the result does not depend on the order of the hash map |
| `Initializers.OrderDoesNotMatter` | src/behavior.rs:1172-1210 | Two lists with the same handlers, registered or merged in whatever order, end with the same components and agree on whether they panic |
| `Initializers.AddsAfreshIff` | src/behavior.rs:1122-1126 | The assertion that a handler only adds what is not there yet holds throughout a run if and only if no two handlers that ran add the same component and none adds an initial one, whatever the order |
| `Initializers.InitializerBehaviorList.Push` | src/behavior.rs:1250-1263 | Registers one handler after the others |
| `Initializers.InitializerBehaviorList.ExtendRef` | src/behavior.rs:1222-1238 | Appends the other list's handlers, with all indices shifted right |
| `Initializers.MergedWaiters` | src/behavior.rs:1223-1228 | The merged table lists each handler under exactly its dependencies |
| `BorrowStates.GroupIncrement` | src/core/cell.rs:1158-1162 | For all 2^128 states: adding one to each byte through the word passes the mask test exactly if every byte is from 0x7F to 0xFE, and then it is one more in every byte, with no carry |
| `BorrowStates.RippleIsAddition` | src/core/cell.rs:1158 | Adding the words modulo 2^128 is adding byte by byte with carries |
| `BorrowStates.HighMeansNoCarry` | src/core/cell.rs:1159-1161 | The mask test alone rules out every carry, whatever the bytes were |
| `BorrowStates.WordOfBytes` | src/core/cell.rs:24-28 | A word and its bytes determine each other |
| `BorrowStates.SubtractOnes` | src/core/cell.rs:1244-1248 | Taking one from each nonzero byte through the word borrows nothing across bytes |
| `BorrowStates.MultiOptRefCell.TryBorrow` | src/core/cell.rs:860-881 | In every state, also beside a group writer, exactly the borrow that the byte admits; if no group writer was ever out: succeeds exactly if the cell is full, not mutably borrowed and has fewer than 128 readers |
| `BorrowStates.MultiOptRefCell.TryBorrowMut` | src/core/cell.rs:937-959 | Likewise for the writer: if no group writer was ever out, succeeds exactly if the cell is full and not borrowed at all |
| `BorrowStates.MultiOptRefCell.CloneGuard` | src/core/cell.rs:95-109 | One borrow more of the same kind; panics exactly when there are as many as the byte can tell |
| `BorrowStates.MultiOptRefCell.DropGuard` | src/core/cell.rs:111-119 | One borrow less of the same kind |
| `BorrowStates.MultiOptRefCell.TryReplace` | src/core/cell.rs:1062-1121 | Fails exactly if the value is borrowed; otherwise the old value is returned and the cell is full exactly if the new one is there |
| `BorrowStates.MultiOptRefCell.TryBorrowAll` | src/core/cell.rs:1154-1170 | Succeeds exactly if every cell could be borrowed on its own, and then borrows each once |
| `BorrowStates.MultiOptRefCell.DropAll` | src/core/cell.rs:1244-1248 | Undoes it |
| `BorrowStates.MultiOptRefCell.TryBorrowAllMut` | src/core/cell.rs:1172-1187 | As written: taken only if every byte is neutral, that is if nothing in the group is borrowed, but the stored bytes say that each cell has one reader |
| `BorrowStates.MultiOptRefCell.DropAllMut` | src/core/cell.rs:1272-1276 | As written: every byte becomes neutral, whoever else is still out |
| `BorrowStates.MultiOptRefCell.ValidIsTracked` | src/core/cell.rs:30-38 | A state that no group writer has touched satisfies the invariant that accounts for them |
| `BorrowStates.NextIsOk` | src/core/cell.rs:860-1276 | For every step of one cell, single or of its group, that its guards allow: the byte is neutral plus readers, minus writers, plus group writers, minus what earlier drops of group writers left behind |
| `BorrowStates.NextDisturbs` | src/core/cell.rs:1272-1276 | The only step that leaves something behind is dropping a group writer while readers are out |
| `BorrowStates.AfterMore` | src/core/cell.rs:860-1276 | A run does one step after the other, each if the guards that are out allow it |
| `BorrowStates.CleanIffReadersWentFirst` | src/core/cell.rs:1272-1276 | For every run: once all guards are dropped the byte is neutral if and only if no reader of that cell was out when the group writer was dropped; otherwise it stays below by their number, so that nobody can borrow the value any more |
| `BorrowStates.CleanIffNothingOwed` | src/core/cell.rs:860-1276 | For every run with any number of group writers: the byte is neutral in the end if and only if what they left behind is a multiple of 256 |
| `BorrowStates.DropOrderMatters` | src/core/cell.rs:1272-1276 | A group writer and one reader beside it: dropping the reader first leaves the cell clean, the writer first does not |
| `BorrowStates.GroupWriterAdmitsReaders` | src/core/cell.rs:1179 | While a group writer is out, a cell admits a single reader exactly if fewer than 127 are out, and no writer |
| `BorrowStates.ExcludesIff` | src/core/cell.rs:53-93 | Exactly which stored bytes keep all other borrowers out |
| `BorrowStates.ByteIsTelling` | src/core/cell.rs:30-38 | A borrowed cell never reads as empty, and the byte tells readers from writers |
| `BorrowStates.AcquiringIsExact` | src/core/cell.rs:53-93 | The byte tests are the reader/writer rule |
| `Events.Drain` | src/event.rs:337-371 | The calls read the primary and the secondary list in turns, and each is shown all the list has at that moment; the loop breaks off after exactly the first call that says so; otherwise it ends after exactly the first call, but for the very first, that left the list it could write alone, and then the last two calls showed the final contents of both lists |
| `Events.DrainOn` | src/event.rs:352-370 | The loop proper: at its head the list in the writer role is unchanged since its recorded version, and the reader's version has moved on exactly if the last call wrote to it |
| `Events.VersionsAreFaithful` | src/event.rs:95-115 | Equal versions of a list mean equal contents, across any number of clears |
| `Events.VecEventList.DriveQuery` | src/event.rs:138-174 | Each key gets what concerns it of the events it has not seen, once and in order |
| `Events.MatchingPicks` | src/event.rs:138-174 | That is exactly the uncleared events whose target the key matches, in order |
| `Events.VecEventList.Clear` | src/event.rs:108-115 | Empties the list, forgets what was processed and moves to a new generation |
| `Events.VecEventList.Fire` | src/event.rs:84-87 | Appends one event |

## Left out

- Databases.DbRoot.Spawn: the identifier drawn is a parameter that must be unused by any live entity or by a dead one still occupying a cell; that the generator's period is full is not shown.
- Databases.DbRoot.Flush: component values must not be borrowed by anybody meanwhile (the swap would panic), nor taken out through raw slots; both are conditions on users.
- Databases.DbRoot.Destroy: destructors of components do not call back into the database between the despawn and the end of the teardown.
- Databases.DbRoot.InsertComponent: overwriting assumes that the old value is not borrowed.
- Queries.Query: stated for databases without dead entities pending, for entities that own every queried component, and for heaps whose length fits 64 bits; a cell of a dead entity, or an entity that lacks a component, is not covered.
- Queries.QueryArchetype: a whole block is visited alike whether its group borrow succeeds or its elements are borrowed one by one; borrow conflicts of single elements are not modelled.
- OrderedBehaviors.OrderedBehaviorList.Drive: lists joined by `extend` or `extend_ref` are not covered; the counters are unbounded.
- Initializers.InitializerBehaviorList.Run: each handler adds a fixed set of components and removes none, and the assertion against adding a component twice is not a branch of the run; when it would fail is stated by `Initializers.AddsAfreshIff`.
- BorrowStates.MultiOptRefCell.TryBorrowAllMut: single borrows, clones and drops after it are modelled, but not shared borrows of the whole group or replacements of values while it is out.
- BorrowStates.MultiOptRefCell.TryBorrowAll: the addition wraps as it does in release builds; a debug build panics on overflow of the whole word.
- Events.Drain: looks at a finite script of what the handler does, and does not claim that a run ends, since a handler may fire for ever.
- Events.VecEventList.DriveQuery: for handlers that always continue; which entities a key looks for is a fixed predicate, where the code consults the physical archetypes at the time.
- Arena.FreeListArena.Alloc: slot indices are unbounded, where the code truncates them to 32 bits; that a checked pointer to a freed slot counts as alive until the slot is reused is not stated.
- SetMaps.SetMap.LookupCommon: the payload of an entry is kept beside the graph (`ArchetypeIndexes`), not inside the entry; the arena of component lists, which leaks, is the same arena never freed.
- Blocks.BlockAllocator.Alloc: the 128-bit mask is a sequence of bits, and the index of hammered or full blocks is -1 in place of the largest machine word.
- Counters (virtual counts, flushes, generations of event lists) are unbounded.
- Lists of an archetype's heaps and cells are sequences held by the archetype rather than shared reference-counted slices.
- Pointers are indices or object references; leaking, downcasts and lifetimes have no counterpart.
- The archetype path of driven queries (`src/query.rs:1780-1856`), which no driver uses.
- `MultiOptRefCell::get_mut` (`src/core/cell.rs:807-819`), whose value iterator only advances on full slots.
- Macros, injectors, adapters, multiplexers and trait plumbing, which hold no state.
- Main-thread tokens, jailing and token cells, whose guarantees are mostly those of types.
- Debug counters and labels, formatting, global tag caches, hashing details and static borrow analysis annotations.
