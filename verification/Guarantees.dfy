/** What the invariant of a database and the contract of a flush mean for those who use them. */
module Guarantees {
  import opened Iters
  import opened Arena
  import opened KeyGraph
  import opened Collector
  import opened Heaps
  import opened Archetypes
  import opened Layout
  import opened StorageViews
  import opened Storages
  import opened StorageTables
  import opened DbState
  import opened FlushState
  import opened DbSteps
  import opened Databases

  /** After a flush, the cells of a non-root archetype are in bijection with the live entities that want it:
      each record names exactly its entity's cell, no other cell is occupied, and all heaps but the last are
      full. */
  lemma FlushedLayoutIsExact(alive: Alive, arches: Arches, root: Ptr, a: Ptr, p: Pos, e: Entity)
    requires RecordsOk(alive, arches, root, [], []) && Clean(alive) && a in arches && a != root
    ensures Doubling(SizesOf(arches[a].heaps))
    ensures Occupied(arches[a], p) && arches[a].heaps[p.heap][p.slot] == e <==>
      e in alive && alive[e].virt == a && alive[e].Place() == p
    ensures arches[a].heaps != [] ==>
      0 < arches[a].lastHeapLen <= |arches[a].heaps[|arches[a].heaps| - 1]|
  {
    assert Elems<Dead>([]) == {};
    NoDeadMeansBijection(alive, arches, root, a, p, e);
    assert ArchOk(arches[a]);
    HeapsAreDoubling(arches[a]);
  }

  /** The component heaps of an archetype double like its entity heaps, and there are no more of them. */
  lemma ComponentHeapsDouble(views: Views, place: Alive, arches: Arches, t: CompType, a: Ptr)
    requires StoresOk(views, place, arches) && t in views && a in views[t].heaps
    ensures a in arches && t in arches[a].managed && |views[t].heaps[a]| <= |arches[a].heaps|
    ensures forall i :: 0 <= i < |views[t].heaps[a]| ==> views[t].heaps[a][i] in views[t].mem.heaps
    ensures Doubling(SlotCounts(views[t].mem, views[t].heaps[a]))
  {
    var v := views[t];
    assert Settled(v, t, place, ManagedOf(arches)) && TrimmedIn(v, arches, {});
    ListedIsManaged(v, t, place, ManagedOf(arches), a);
    ListsAreHeaps(v, t, place, ManagedOf(arches), a);
    assert ListOf(v, a) == v.heaps[a];
    CapsAreDoubling(SlotCounts(v.mem, v.heaps[a]));
  }

  ghost function SlotCounts(m: Mem, list: seq<HeapId>): (sizes: seq<int>)
    requires forall i :: 0 <= i < |list| ==> list[i] in m.heaps
    ensures |sizes| == |list| && forall i :: 0 <= i < |list| ==> sizes[i] == |m.heaps[list[i]].slots|
  {
    seq(|list|, i requires 0 <= i < |list| => |m.heaps[list[i]].slots|)
  }

  /** A component of a type its entity's archetype manages is in the external heap at exactly its entity's own
      place, and that heap has as many slots as the entity heap has cells; any other component holds a
      reservation in an anonymous block. */
  lemma ComponentIsAtItsPlace(views: Views, place: Alive, arches: Arches, t: CompType, e: Entity)
    requires StoresOk(views, place, arches) && Holds(views, t, e)
    ensures e in place && place[e].phys in arches
    ensures t in arches[place[e].phys].managed ==>
      var loc := External(place[e].heapIndex, place[e].slotIndex);
      && LocExists(views[t], place[e].phys, loc)
      && HandleOf(views, t, e) == Some(HandleAt(views[t], place[e].phys, loc))
      && SpotOf(views[t], place[e].phys, loc) == Spot(views[t].heaps[place[e].phys][loc.heap], loc.slot)
      && |views[t].mem.heaps[SpotOf(views[t], place[e].phys, loc).heap].slots| == HeapCap(place[e].heapIndex)
    ensures t !in arches[place[e].phys].managed ==>
      exists b, i :: LocExists(views[t], place[e].phys, Anonymous(b, i)) && i in views[t].lots[b].taken
        && HandleOf(views, t, e) == Some(HandleAt(views[t], place[e].phys, Anonymous(b, i)))
  {
    var v := views[t];
    assert Settled(v, t, place, ManagedOf(arches)) && MappingOk(v, t, place, ManagedOf(arches), e);
    match v.mappings[e].loc
    case Anonymous(b, i) =>
      assert LocExists(v, place[e].phys, Anonymous(b, i)) && i in v.lots[b].taken;
    case External(h, s) =>
      ListsAreHeaps(v, t, place, ManagedOf(arches), place[e].phys);
      assert ListOf(v, place[e].phys)[h] in v.mem.heaps;
  }

  /** A flush is invisible to whoever holds components: the same handles, reading the same values. */
  lemma FlushIsInvisible(w0: World, g: Graph, root: Ptr, w: World, order: seq<Ptr>, panicked: bool)
    requires FlushDid(w0, g, root, w, order, panicked) && StoresOk(w0.views, w0.alive, w0.arches)
    ensures SameForAll(w0.views, w.views)
  {
    SameForHolders(w0.views, w.views, w0.alive, w0.arches);
  }

  /** A flush only panics if one of the archetypes to be deleted also goes because of the others. */
  lemma PanicMeansHazard(w0: World, g: Graph, root: Ptr, w: World, order: seq<Ptr>)
    requires FlushDid(w0, g, root, w, order, true)
    ensures Hazard(g, root, InDemand(w0.arches, root), Doomed(w0.arches, root))
  {
    PanicNeedsHazard(g, root, InDemand(w0.arches, root), order, Doomed(w0.arches, root));
  }

  /** Conversely, some iteration order of those archetypes does panic then. */
  lemma HazardMeansPanic(arches: Arches, g: Graph, root: Ptr)
    requires GraphInv(g, root) && g.Keys == arches.Keys
    ensures Doomed(arches, root) <= g.Keys
    ensures Hazard(g, root, InDemand(arches, root), Doomed(arches, root)) <==>
      exists order :: IsOrderOf(order, Doomed(arches, root)) && Panics(g, root, InDemand(arches, root), order)
  {
    SomeOrderPanicsIff(g, root, InDemand(arches, root), Doomed(arches, root));
  }

  /** A flush that does not panic deletes an archetype exactly if nobody wants it, nothing it leads to stays,
      and it either held entities or was a stepping stone. */
  lemma DeletedByFlush(w0: World, g: Graph, root: Ptr, w: World, order: seq<Ptr>, a: Ptr)
    requires FlushDid(w0, g, root, w, order, false) && g.Keys == w0.arches.Keys && a in g
    ensures a !in w.arches <==>
      && a !in InDemand(w0.arches, root)
      && (forall k :: k in g[a].ext && g[a].ext[k] != a ==> g[a].ext[k] !in w.arches)
      && (a in Doomed(w0.arches, root) || HasOnward(g, a))
  {
    forall k | k in g[a].ext && g[a].ext[k] != a
      ensures g[a].ext[k] in g
    {
      OnwardIsAbove(g, root, a, k);
    }
    assert a in w.arches.Keys <==> !Collected(g, root, InDemand(w0.arches, root), Doomed(w0.arches, root), a);
  }

  /** An archetype to be deleted leads to others, and nothing it reaches is wanted: two archetypes in a chain
      that are to go in the same flush. */
  ghost predicate AbandonedChain(arches: Arches, g: Graph, root: Ptr) {
    exists d :: d in g && d in Doomed(arches, root) && HasOnward(g, d) && Deserted(g, InDemand(arches, root), d)
  }

  /** Between operations an archetype that is neither wanted nor to be deleted is a stepping stone. */
  lemma NothingElseIsThere(alive: Alive, arches: Arches, g: Graph, root: Ptr)
    requires CountsOk(alive, arches, root) && NoIdleBut(g, Busy(arches, root), {}) && g.Keys == arches.Keys
    ensures forall q :: q in g ==> q in InDemand(arches, root) || q in Doomed(arches, root) || HasOnward(g, q)
  {
    forall q | q in g && !HasOnward(g, q)
      ensures q in InDemand(arches, root) || q in Doomed(arches, root)
    {
      assert q in Busy(arches, root) && (q != root ==> CountOk(alive, arches, q));
    }
  }

  /** A flush can panic, for some iteration order, exactly if there is an abandoned chain. */
  lemma ChainMeansPanic(alive: Alive, arches: Arches, g: Graph, root: Ptr)
    requires GraphInv(g, root) && g.Keys == arches.Keys
    requires CountsOk(alive, arches, root) && NoIdleBut(g, Busy(arches, root), {})
    ensures Doomed(arches, root) <= g.Keys
    ensures AbandonedChain(arches, g, root) <==>
      exists order :: IsOrderOf(order, Doomed(arches, root)) && Panics(g, root, InDemand(arches, root), order)
  {
    NothingElseIsThere(alive, arches, g, root);
    HazardIff(g, root, InDemand(arches, root), Doomed(arches, root));
    HazardMeansPanic(arches, g, root);
  }

  /** And no flush panics without one, whatever else it tries to delete. */
  lemma PanicMeansChain(w0: World, g: Graph, root: Ptr, w: World, order: seq<Ptr>)
    requires FlushDid(w0, g, root, w, order, true) && g.Keys == w0.arches.Keys
    requires CountsOk(w0.alive, w0.arches, root) && NoIdleBut(g, Busy(w0.arches, root), {})
    ensures AbandonedChain(w0.arches, g, root)
  {
    NothingElseIsThere(w0.alive, w0.arches, g, root);
    PanicMeansHazard(w0, g, root, w, order);
    HazardIff(g, root, InDemand(w0.arches, root), Doomed(w0.arches, root));
  }

  /** What a flush keeps: the archetypes from which a wanted one, or the root, is reached. */
  lemma KeptByFlush(w0: World, g: Graph, root: Ptr, w: World, order: seq<Ptr>, a: Ptr)
    requires FlushDid(w0, g, root, w, order, false) && g.Keys == w0.arches.Keys && a in g
    requires CountsOk(w0.alive, w0.arches, root) && NoIdleBut(g, Busy(w0.arches, root), {})
    ensures a in w.arches <==> exists q :: Reaches(g, a, q) && q in InDemand(w0.arches, root)
  {
    NothingElseIsThere(w0.alive, w0.arches, g, root);
    LeavesIff(g, root, InDemand(w0.arches, root), Doomed(w0.arches, root), w.arches.Keys, a);
  }

  /** One of the two dead entities of the example below, in the only cell of its archetype. */
  function Held(tags: seq<Tag>, e: Entity): Arch {
    Arch(tags, {}, [], [seq(HeapCap(0), _ => PLACEHOLDER)[0 := e]], 1, 0)
  }

  ghost function ChainArches(): Arches {
    map[0 := Arch([], {}, [], [], 0, 0), 1 := Held([5], 7), 2 := Held([5, 6], 8)]
  }

  ghost function ChainDead(): seq<Dead> {
    [Dead(7, 1, 0, 0), Dead(8, 2, 0, 0)]
  }

  lemma HeldIsOk(tags: seq<Tag>, e: Entity)
    ensures ArchOk(Held(tags, e))
    ensures forall p :: At(Held(tags, e), p) == if p == Pos(0, 0) then Some(e) else None
  {
  }

  lemma ChainIsMirrored()
    ensures Mirrored(map[], ChainArches(), 0, Elems(ChainDead())) && NonePopped(ChainArches(), Elems(ChainDead()))
  {
    var dead := ChainDead();
    HeldIsOk([5], 7);
    HeldIsOk([5, 6], 8);
    assert dead[0] in Elems(dead) && dead[1] in Elems(dead);
  }

  lemma ChainRecordsAreOk()
    ensures RecordsOk(map[], ChainArches(), 0, [], ChainDead())
  {
    ChainIsMirrored();
    forall a | a in ChainArches() && a != 0 ensures CountOk(map[], ChainArches(), a) {
      assert Members(map[], a) == {};
    }
  }

  /** The keys of the example's entries are its archetypes' tags. */
  lemma ChainTags(a: Ptr)
    ensures Chain().Keys == ChainArches().Keys == {0, 1, 2}
    ensures a in Chain() ==> Elems(ChainArches()[a].tags) == Chain()[a].keys
  {
    assert Elems<Tag>([]) == {} && Elems([5]) == {5} && Elems([5, 6]) == {5, 6};
  }

  lemma ChainDemand()
    ensures Doomed(ChainArches(), 0) == {1, 2} && InDemand(ChainArches(), 0) == {0}
    ensures Busy(ChainArches(), 0) == {0, 1, 2}
    ensures NoIdleBut(Chain(), Busy(ChainArches(), 0), {})
    ensures StoresOk(map[], map[], ChainArches()) && ListsOk(map[], map[], map[])
  {
  }

  /** A database whose next flush panics if the hash set happens to yield the larger archetype first: of two
      entities laid out with the tags 5, and 5 and 6, both have died since. All invariants hold. */
  lemma PanickingDatabase() returns (g: Graph, arches: Arches, dead: seq<Dead>)
    ensures GraphInv(g, 0) && g.Keys == arches.Keys && forall a :: a in g ==> Elems(arches[a].tags) == g[a].keys
    ensures RecordsOk(map[], arches, 0, [], dead) && NoIdleBut(g, Busy(arches, 0), {})
    ensures StoresOk(map[], map[], arches) && ListsOk(map[], map[], map[])
    ensures Doomed(arches, 0) == {1, 2} && {1, 2} <= g.Keys && g[1].keys == {5} && g[2].keys == {5, 6}
    ensures AbandonedChain(arches, g, 0)
    ensures Elems([2, 1]) == {1, 2} && Panics(g, 0, InDemand(arches, 0), [2, 1])
    ensures Elems([1, 2]) == {1, 2} && !Panics(g, 0, InDemand(arches, 0), [1, 2])
  {
    g, arches, dead := Chain(), ChainArches(), ChainDead();
    DeletionCanPanic();
    ChainDemand();
    ChainRecordsAreOk();
    forall a | a in g ensures Elems(arches[a].tags) == g[a].keys { ChainTags(a); }
    assert IsOrderOf([2, 1], Doomed(arches, 0));
    ChainMeansPanic(map[], arches, g, 0);
  }

  /** Without an abandoned chain a flush does not panic, and the database is usable afterwards. */
  method FlushWithoutChain(db: DbRoot) returns (outcome: FlushOutcome)
    requires db.Valid() && !AbandonedChain(db.index.arches, db.index.Graph(), db.index.graph.root)
    modifies db`alive, db`dirty, db`dead, db`flushCount
    modifies db.index, db.index.graph, db.index.graph.arena, db.table.Repr
    ensures db.Valid() && outcome != Panicked && (outcome == ConcurrentFlush <==> db.queryGuards > 0)
    ensures outcome == Flushed ==> Clean(db.alive) && SameForAll(old(db.table.views), db.table.views)
  {
    ghost var w0, g := db.Now(), db.index.Graph();
    ghost var root := db.index.graph.root;
    var order;
    outcome, order := db.Flush();
    if outcome == Panicked {
      PanicMeansChain(w0, g, root, db.Now(), order);
    } else if outcome == Flushed {
      FlushIsInvisible(w0, g, root, db.Now(), order, false);
    }
  }
}
