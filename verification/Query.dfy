/** Queries over all entities with given tags (`src/query.rs`, `QueryPart::query` with an entity part and any
    number of component parts, for a handler that always continues). */
module Queries {
  import opened Iters
  import opened Sorting
  import opened Arena
  import opened Heaps
  import opened Archetypes
  import opened Layout
  import opened StorageViews
  import opened Storages
  import opened StorageTables
  import opened DbState
  import opened ArchetypeIndexes
  import opened FlushState
  import opened DbSteps
  import opened Databases
  import opened Traversal

  /** What the handler is called with: an entity, and the slot of each requested component. */
  datatype Item = Item(entity: Entity, handles: seq<SlotId>)

  // === When a query finds what it looks for === //

  /** Every entity in the archetype has every requested component, and the archetype manages them all. */
  ghost predicate Stocked(alive: Alive, arches: Arches, views: Views, types: seq<CompType>, a: Ptr) {
    && a in arches
    && (forall k {:trigger types[k]} :: 0 <= k < |types| ==> types[k] in views && types[k] in arches[a].managed)
    && (forall e, k {:trigger Holds(views, types[k], e)} :: e in alive && alive[e].phys == a && 0 <= k < |types| ==>
          Holds(views, types[k], e))
  }

  /** The layout as it is with no dead entity pending. */
  ghost predicate WithoutDead(alive: Alive, arches: Arches, views: Views, root: Ptr) {
    && Mirrored(alive, arches, root, {}) && StoresOk(views, alive, arches)
  }

  /** The component heaps of a fully stocked archetype match its entity heaps one to one. */
  lemma StockedHeapsMatch(alive: Alive, arches: Arches, views: Views, root: Ptr, types: seq<CompType>, a: Ptr, k: int)
    requires WithoutDead(alive, arches, views, root) && Stocked(alive, arches, views, types, a) && a != root
    requires 0 <= k < |types|
    ensures |ListOf(views[types[k]], a)| == |arches[a].heaps|
  {
    var t := types[k];
    var v := views[t];
    assert ArchOk(arches[a]);
    assert Settled(v, t, alive, ManagedOf(arches)) && TrimmedIn(v, arches, {});
    if arches[a].heaps != [] {
      LastIsOccupied(arches[a]);
      assert CellOk(alive, arches, {}, a, LastPos(arches[a]));
      var e := At(arches[a], LastPos(arches[a])).value;
      assert Holds(views, types[k], e) && MappingOk(v, t, alive, ManagedOf(arches), e);
    }
  }

  /** At an occupied position of such an archetype there is a live entity, and the slot there is the very
      handle that was given out for its component. */
  lemma StockedSlotIsHandle(alive: Alive, arches: Arches, views: Views, root: Ptr, types: seq<CompType>, a: Ptr, p: Pos,
                            k: int)
    requires WithoutDead(alive, arches, views, root) && Stocked(alive, arches, views, types, a) && a != root
    requires 0 <= k < |types| && Occupied(arches[a], p)
    ensures arches[a].heaps[p.heap][p.slot] in alive
    ensures LocExists(views[types[k]], a, External(p.heap, p.slot))
    ensures Some(HandleAt(views[types[k]], a, External(p.heap, p.slot)))
      == HandleOf(views, types[k], arches[a].heaps[p.heap][p.slot])
  {
    var t := types[k];
    var v := views[t];
    var e := arches[a].heaps[p.heap][p.slot];
    assert CellOk(alive, arches, {}, a, p) && At(arches[a], p) == Some(e);
    assert Settled(v, t, alive, ManagedOf(arches));
    assert Holds(views, types[k], e) && MappingOk(v, t, alive, ManagedOf(arches), e);
  }

  // === One archetype === //

  /** What the handler sees at one position. */
  ghost predicate SeenAt(item: Item, arches: Arches, views: Views, types: seq<CompType>, a: Ptr, p: Pos) {
    && a in arches && At(arches[a], p) == Some(item.entity) && |item.handles| == |types|
    && forall k {:trigger types[k]} :: 0 <= k < |types| ==>
         Some(item.handles[k]) == HandleOf(views, types[k], item.entity)
  }

  /** The number of blocks in each traversed heap: entity heaps zipped with the heaps of each component. */
  method BlockCounts(table: StorageTable, a: Ptr, arch: Arch, types: seq<CompType>, ghost alive: Alive,
                     ghost arches: Arches, ghost root: Ptr)
    returns (blocks: seq<int>)
    requires table.Valid() && WithoutDead(alive, arches, table.views, root)
    requires Stocked(alive, arches, table.views, types, a) && a != root && arches[a] == arch
    ensures |blocks| == |arch.heaps| && forall i :: 0 <= i < |blocks| ==> blocks[i] * LANES == |arch.heaps[i]|
  {
    assert ArchOk(arches[a]);
    forall i | 0 <= i < |arch.heaps| ensures |arch.heaps[i]| / LANES * LANES == |arch.heaps[i]| { HeapsAreBlocks(i); }
    blocks := seq(|arch.heaps|, i requires 0 <= i < |arch.heaps| => |arch.heaps[i]| / LANES);
    var k := 0;
    while k < |types|
      invariant 0 <= k <= |types| && |blocks| == |arch.heaps|
      invariant forall i :: 0 <= i < |blocks| ==> blocks[i] == |arch.heaps[i]| / LANES
    {
      StockedHeapsMatch(alive, arches, table.views, root, types, a, k);
      var lens := table.HeapLengths(types[k], a, alive, ManagedOf(arches));
      // A zip is as long as the shorter of the two.
      var n := if |lens| < |blocks| then |lens| else |blocks|;
      var zipped := seq(n, i requires 0 <= i < n => if lens[i] / LANES < blocks[i] then lens[i] / LANES else blocks[i]);
      blocks := zipped;
      k := k + 1;
    }
  }

  method ReadAt(table: StorageTable, a: Ptr, arch: Arch, p: Pos, types: seq<CompType>, ghost alive: Alive,
                ghost arches: Arches, ghost root: Ptr)
    returns (item: Item)
    requires table.Valid() && WithoutDead(alive, arches, table.views, root)
    requires Stocked(alive, arches, table.views, types, a) && a != root && arches[a] == arch && Occupied(arch, p)
    ensures SeenAt(item, arches, table.views, types, a, p)
  {
    var entity := arch.heaps[p.heap][p.slot];
    var handles := [];
    var k := 0;
    while k < |types|
      invariant 0 <= k <= |types| && |handles| == k
      invariant forall j {:trigger types[j]} :: 0 <= j < k ==>
        Some(handles[j]) == HandleOf(table.views, types[j], entity)
    {
      StockedSlotIsHandle(alive, arches, table.views, root, types, a, p, k);
      var handle := table.SlotIn(types[k], a, p.heap, p.slot);
      handles := handles + [handle];
      k := k + 1;
    }
    item := Item(entity, handles);
  }

  /** The items of one archetype, in the order of its positions. */
  ghost predicate SeenAll(items: seq<Item>, arches: Arches, views: Views, types: seq<CompType>, a: Ptr,
                          visits: seq<Pos>)
  {
    |items| == |visits| && forall i {:trigger items[i]} :: 0 <= i < |items| ==>
      SeenAt(items[i], arches, views, types, a, visits[i])
  }

  method QueryArchetype(table: StorageTable, a: Ptr, arch: Arch, types: seq<CompType>, ghost alive: Alive,
                        ghost arches: Arches, ghost root: Ptr)
    returns (items: seq<Item>)
    requires table.Valid() && WithoutDead(alive, arches, table.views, root)
    requires Stocked(alive, arches, table.views, types, a) && a != root && arches[a] == arch
    requires forall i :: 0 <= i < |arch.heaps| ==> |arch.heaps[i]| <= USIZE_MAX
    ensures ArchOk(arch) && SeenAll(items, arches, table.views, types, a, Positions(arch, |arch.heaps|))
  {
    assert ArchOk(arches[a]);
    var blocks := BlockCounts(table, a, arch, types, alive, arches, root);
    var visits := VisitArchetype(arch, |arch.heaps|, arch.lastHeapLen, blocks);
    items := [];
    var i := 0;
    while i < |visits|
      invariant 0 <= i <= |visits| && |items| == i
      invariant forall j {:trigger items[j]} :: 0 <= j < i ==>
        SeenAt(items[j], arches, table.views, types, a, visits[j])
    {
      PositionsAre(arch, |arch.heaps|, visits[i]);
      var item := ReadAt(table, a, arch, visits[i], types, alive, arches, root);
      items := items + [item];
      i := i + 1;
    }
  }

  // === All matching archetypes === //

  function Entities(items: seq<Item>): seq<Entity> {
    seq(|items|, i requires 0 <= i < |items| => items[i].entity)
  }

  /** The items of the archetypes in `done`: each live entity in one of them exactly once, with its handles. */
  ghost predicate Found(items: seq<Item>, alive: Alive, views: Views, types: seq<CompType>, done: seq<Ptr>) {
    && NoRepeats(Entities(items))
    && (forall e :: e in Entities(items) <==> e in alive && alive[e].phys in done)
    && (forall i {:trigger items[i]} :: 0 <= i < |items| ==> WithHandles(items[i], views, types))
    && InOrder(items, alive)
  }

  /** Archetypes come in ascending order, and the entities of one archetype heap by heap and slot by slot. */
  ghost predicate InOrder(items: seq<Item>, alive: Alive) {
    && (forall i :: 0 <= i < |items| ==> items[i].entity in alive)
    && (forall i, j :: 0 <= i < j < |items| ==> Earlier(alive[items[i].entity], alive[items[j].entity]))
  }

  ghost predicate Earlier(x: Info, y: Info) {
    x.phys < y.phys || (x.phys == y.phys && Before(x.Place(), y.Place()))
  }

  ghost predicate WithHandles(item: Item, views: Views, types: seq<CompType>) {
    && |item.handles| == |types|
    && forall k {:trigger types[k]} :: 0 <= k < |types| ==>
         Some(item.handles[k]) == HandleOf(views, types[k], item.entity)
  }

  /** The items of one archetype are its live entities, each once. */
  lemma SeenAreResidents(items: seq<Item>, alive: Alive, arches: Arches, views: Views, root: Ptr, types: seq<CompType>,
                         a: Ptr)
    requires WithoutDead(alive, arches, views, root) && a in arches && a != root && ArchOk(arches[a])
    requires SeenAll(items, arches, views, types, a, Positions(arches[a], |arches[a].heaps|))
    ensures NoRepeats(Entities(items)) && forall e :: e in Entities(items) <==> e in alive && alive[e].phys == a
    ensures InOrder(items, alive) && forall i :: 0 <= i < |items| ==> alive[items[i].entity].phys == a
  {
    var n, visits := |arches[a].heaps|, Positions(arches[a], |arches[a].heaps|);
    PositionsAreDistinct(arches[a], n);
    PositionsAreInOrder(arches[a], n);
    forall i | 0 <= i < |items| ensures LivesAt(alive, items[i].entity, a, visits[i]) {
      assert SeenAt(items[i], arches, views, types, a, visits[i]) && CellOk(alive, arches, {}, a, visits[i]);
    }
    forall e | e in alive && alive[e].phys == a ensures e in Entities(items) {
      assert LiveOk(alive, arches, root, e);
      PositionsAre(arches[a], n, alive[e].Place());
      var i :| 0 <= i < |visits| && visits[i] == alive[e].Place();
      assert SeenAt(items[i], arches, views, types, a, visits[i]);
      assert Entities(items)[i] == e;
    }
  }

  /** The entities of a later archetype come after those of earlier ones. */
  lemma LaterInOrder(items: seq<Item>, more: seq<Item>, alive: Alive, done: seq<Ptr>, a: Ptr)
    requires InOrder(items, alive) && forall e :: e in Entities(items) ==> e in alive && alive[e].phys in done
    requires InOrder(more, alive) && forall i :: 0 <= i < |more| ==> alive[more[i].entity].phys == a
    requires forall b :: b in done ==> b < a
    ensures InOrder(items + more, alive)
  {
    var all := items + more;
    forall i, j | 0 <= i < j < |all| ensures Earlier(alive[all[i].entity], alive[all[j].entity]) {
      if i < |items| && j >= |items| {
        assert Entities(items)[i] in Entities(items);
      }
    }
  }

  lemma FoundOneMore(items: seq<Item>, more: seq<Item>, alive: Alive, arches: Arches, views: Views, root: Ptr,
                     types: seq<CompType>, done: seq<Ptr>, a: Ptr)
    requires Found(items, alive, views, types, done) && forall b :: b in done ==> b < a
    requires WithoutDead(alive, arches, views, root) && a in arches && a != root && ArchOk(arches[a])
    requires SeenAll(more, arches, views, types, a, Positions(arches[a], |arches[a].heaps|))
    ensures Found(items + more, alive, views, types, done + [a])
  {
    SeenAreResidents(more, alive, arches, views, root, types, a);
    var all := items + more;
    assert Entities(all) == Entities(items) + Entities(more);
    forall i, j | 0 <= i < j < |all| ensures Entities(all)[i] != Entities(all)[j] {
      if i < |items| && j >= |items| {
        assert Entities(items)[i] in Entities(items) && Entities(more)[j - |items|] in Entities(more);
      }
    }
    LaterInOrder(items, more, alive, done, a);
    forall i | 0 <= i < |all| ensures WithHandles(all[i], views, types) {
      if i < |items| {
        assert all[i] == items[i] && WithHandles(items[i], views, types);
      } else {
        assert all[i] == more[i - |items|];
        assert SeenAt(more[i - |items|], arches, views, types, a, Positions(arches[a], |arches[a].heaps|)[i - |items|]);
      }
    }
  }

  method QueryAll(table: StorageTable, list: seq<Ptr>, arches: Arches, types: seq<CompType>, ghost alive: Alive,
                  ghost root: Ptr)
    returns (items: seq<Item>)
    requires table.Valid() && WithoutDead(alive, arches, table.views, root) && Ascending(list)
    requires forall a :: a in list ==> Stocked(alive, arches, table.views, types, a) && a != root
    requires Addressable(arches)
    ensures Found(items, alive, table.views, types, list)
  {
    items := [];
    var i := 0;
    assert Entities([]) == [];
    while i < |list|
      invariant 0 <= i <= |list| && Found(items, alive, table.views, types, list[..i])
    {
      var a := list[i];
      assert a in list && Stocked(alive, arches, table.views, types, a);
      var more := QueryArchetype(table, a, arches[a], types, alive, arches, root);
      assert a !in list[..i] && list[..i + 1] == list[..i] + [a];
      FoundOneMore(items, more, alive, arches, table.views, root, types, list[..i], a);
      items := items + more;
      i := i + 1;
    }
    assert list[..i] == list;
  }

  /** Heaps fit the address space. */
  ghost predicate Addressable(arches: Arches) {
    forall a, i :: a in arches && 0 <= i < |arches[a].heaps| ==> |arches[a].heaps[i]| <= USIZE_MAX
  }

  // === The query === //

  /** Every part of the query brings the tag of its component type along. */
  ghost predicate Typed(types: seq<CompType>, list: seq<Tag>, tagTypes: TagTypes) {
    forall k {:trigger types[k]} :: 0 <= k < |types| ==> exists j ::
        0 <= j < |list| && tagTypes(list[j]) == Some(types[k])
  }

  /** Every entity laid out with the tags has the components. */
  ghost predicate Owned(alive: Alive, arches: Arches, views: Views, types: seq<CompType>, list: seq<Tag>) {
    forall e, k {:trigger Holds(views, types[k], e)} ::
      e in alive && HasAll(arches, list, alive[e].phys) && 0 <= k < |types| ==> Holds(views, types[k], e)
  }

  /** A matching archetype is not the root, and is fully stocked. */
  lemma MatchesAreStocked(db: DbRoot, views: Views, types: seq<CompType>, list: seq<Tag>, a: Ptr)
    requires db.index.Valid() && list != [] && HasAll(db.index.arches, list, a)
    requires Typed(types, list, db.index.types) && Owned(db.alive, db.index.arches, views, types, list)
    requires forall k :: 0 <= k < |types| ==> types[k] in views
    ensures a != db.index.graph.root && Stocked(db.alive, db.index.arches, views, types, a)
  {
    db.index.RootHasNoTags();
    assert list[0] in db.index.arches[a].tags;
    forall k | 0 <= k < |types| ensures types[k] in db.index.arches[a].managed {
      var j :| 0 <= j < |list| && db.index.types(list[j]) == Some(types[k]);
      assert list[j] in db.index.arches[a].tags;
      var arch, t := db.index.arches[a], types[k];
      var i :| 0 <= i < |arch.tags| && arch.tags[i] == list[j];
      db.index.ManagesItsTypes(a);
      assert db.index.types(arch.tags[i]) == Some(t) && t in arch.managed;
    }
  }

  lemma StillOwned(alive: Alive, arches: Arches, before: Views, after: Views, types: seq<CompType>, list: seq<Tag>)
    requires Owned(alive, arches, before, types, list) && SameForAll(before, after)
    ensures Owned(alive, arches, after, types, list)
  {
    forall e, k | e in alive && HasAll(arches, list, alive[e].phys) && 0 <= k < |types|
      ensures Holds(after, types[k], e)
    {
      assert Holds(before, types[k], e) && HandleOf(after, types[k], e) == HandleOf(before, types[k], e);
    }
  }

  ghost predicate Opened(before: Views, after: Views, types: seq<CompType>, k: int) {
    && 0 <= k <= |types| && SameForAll(before, after)
    && forall j {:trigger types[j]} :: 0 <= j < k ==> types[j] in after
  }

  lemma OpenedOneMore(before: Views, mid: Views, after: Views, types: seq<CompType>, k: int)
    requires Opened(before, mid, types, k) && k < |types|
    requires SameForAll(mid, after) && mid.Keys <= after.Keys && types[k] in after
    ensures Opened(before, after, types, k + 1)
  {
    forall u, f
      ensures ComponentOf(after, u, f) == ComponentOf(before, u, f) && HandleOf(after, u, f) == HandleOf(before, u, f)
    {
      assert ComponentOf(after, u, f) == ComponentOf(mid, u, f) && HandleOf(after, u, f) == HandleOf(mid, u, f);
    }
  }

  /** Fetches the storages of all parts. */
  method OpenStorages(db: DbRoot, types: seq<CompType>)
    requires db.Valid()
    modifies db.table
    ensures db.Valid() && fresh(db.table.Repr - old(db.table.Repr))
    ensures Opened(old(db.table.views), db.table.views, types, |types|)
  {
    var k := 0;
    while k < |types|
      invariant db.Valid() && fresh(db.table.Repr - old(db.table.Repr))
      invariant Opened(old(db.table.views), db.table.views, types, k)
    {
      ghost var mid := db.table.views;
      db.OpenStorage(types[k], db.alive);
      OpenedOneMore(old(db.table.views), mid, db.table.views, types, k);
      k := k + 1;
    }
  }

  lemma FoundAll(items: seq<Item>, alive: Alive, arches: Arches, views: Views, types: seq<CompType>, list: seq<Tag>,
                 archetypes: seq<Ptr>)
    requires Found(items, alive, views, types, archetypes)
    requires forall a :: a in archetypes <==> list != [] && HasAll(arches, list, a)
    ensures forall e :: e in Entities(items) <==> e in alive && list != [] && HasAll(arches, list, alive[e].phys)
  {
  }

  /** With no dead entity pending, a query visits exactly the live entities laid out in an archetype with all the
      tags, each once, and shows each one's own components: the very handles that were given out for them.
      Meanwhile a flush is refused. */
  method Query(db: DbRoot, types: seq<CompType>, list: seq<Tag>) returns (items: seq<Item>)
    requires db.Valid() && db.dead == [] && Addressable(db.index.arches)
    requires Typed(types, list, db.index.types) && Owned(db.alive, db.index.arches, db.table.views, types, list)
    modifies db`queryGuards, db.index`tags, db.table, db.table.Repr
    ensures db.Valid() && db.alive == old(db.alive) && db.index.arches == old(db.index.arches)
    ensures db.queryGuards == old(db.queryGuards) && SameForAll(old(db.table.views), db.table.views)
    ensures Complete(items, db.alive, db.index.arches, db.table.views, types, list)
  {
    Prepare(db, types, list);
    items := Run(db, types, list);
    db.EndQuery();
  }

  /** Finds the matching archetypes and visits them. */
  method Run(db: DbRoot, types: seq<CompType>, list: seq<Tag>) returns (items: seq<Item>)
    requires db.Valid() && db.dead == [] && Addressable(db.index.arches)
    requires Typed(types, list, db.index.types) && Owned(db.alive, db.index.arches, db.table.views, types, list)
    requires forall k {:trigger types[k]} :: 0 <= k < |types| ==> types[k] in db.table.views
    modifies db.index`tags
    ensures db.Valid() && Complete(items, db.alive, db.index.arches, db.table.views, types, list)
  {
    var archetypes := db.Intersect(list);
    items := Visit(db, archetypes, types, list);
  }

  /** The items are the live entities laid out with all the tags, each exactly once, with their own handles. */
  ghost predicate Complete(items: seq<Item>, alive: Alive, arches: Arches, views: Views, types: seq<CompType>,
                           list: seq<Tag>)
  {
    && NoRepeats(Entities(items))
    && (forall e :: e in Entities(items) <==> e in alive && list != [] && HasAll(arches, list, alive[e].phys))
    && (forall i {:trigger items[i]} :: 0 <= i < |items| ==> WithHandles(items[i], views, types))
    && InOrder(items, alive)
  }

  /** Right after a flush these are the live entities that want all the tags. */
  lemma FlushedFindsWanted(items: seq<Item>, alive: Alive, arches: Arches, views: Views, types: seq<CompType>,
                           list: seq<Tag>, e: Entity)
    requires Complete(items, alive, arches, views, types, list) && Clean(alive)
    ensures e in Entities(items) <==> e in alive && list != [] && HasAll(arches, list, alive[e].virt)
  {
  }

  method Prepare(db: DbRoot, types: seq<CompType>, ghost list: seq<Tag>)
    requires db.Valid() && Owned(db.alive, db.index.arches, db.table.views, types, list)
    modifies db`queryGuards, db.table
    ensures db.Valid() && db.queryGuards == old(db.queryGuards) + 1
    ensures Opened(old(db.table.views), db.table.views, types, |types|)
    ensures Owned(db.alive, db.index.arches, db.table.views, types, list)
  {
    ghost var before := db.table.views;
    OpenStorages(db, types);
    db.BeginQuery();
    StillOwned(db.alive, db.index.arches, before, db.table.views, types, list);
  }

  method Visit(db: DbRoot, archetypes: seq<Ptr>, types: seq<CompType>, list: seq<Tag>) returns (items: seq<Item>)
    requires db.Valid() && db.dead == [] && Addressable(db.index.arches) && Ascending(archetypes)
    requires Typed(types, list, db.index.types) && Owned(db.alive, db.index.arches, db.table.views, types, list)
    requires forall k {:trigger types[k]} :: 0 <= k < |types| ==> types[k] in db.table.views
    requires forall a :: a in archetypes <==> list != [] && HasAll(db.index.arches, list, a)
    ensures Complete(items, db.alive, db.index.arches, db.table.views, types, list)
  {
    forall a | a in archetypes
      ensures a != db.index.graph.root && Stocked(db.alive, db.index.arches, db.table.views, types, a)
    {
      MatchesAreStocked(db, db.table.views, types, list, a);
    }
    assert Elems<Dead>([]) == {};
    items := QueryAll(db.table, archetypes, db.index.arches, types, db.alive, db.index.graph.root);
    FoundAll(items, db.alive, db.index.arches, db.table.views, types, list, archetypes);
  }
}
