/** A run that ends in a panic (`src/database.rs`, the last loop of `flush_archetypes`): from an empty
    database, by calls that all succeed, to one whose next flush panics for some iteration order. */
module FlushPanics {
  import opened Iters
  import opened Arena
  import opened KeyGraph
  import opened Collector
  import opened Heaps
  import opened Archetypes
  import opened Layout
  import opened ArchetypeIndexes
  import opened DbState
  import opened FlushState
  import opened DbSteps
  import opened Databases
  import opened Guarantees

  /** Nothing is laid out anywhere, so there is nothing to delete. */
  lemma NobodyLaidOut(alive: Alive, arches: Arches, root: Ptr)
    requires Mirrored(alive, arches, root, {}) && forall e :: e in alive ==> alive[e].phys == root
    ensures Doomed(arches, root) == {}
  {
    forall a | a in arches && a != root ensures arches[a].heaps == [] {
      assert ArchOk(arches[a]) && CellOk(alive, arches, {}, a, LastPos(arches[a]));
      if arches[a].heaps != [] {
        LastIsOccupied(arches[a]);
      }
    }
  }

  /** A flush with nothing to delete succeeds and leaves the archetypes and their edges alone. */
  lemma NothingDeleted(w0: World, g: Graph, root: Ptr, w: World, h: Graph, order: seq<Ptr>, panicked: bool)
    requires FlushDid(w0, g, root, w, order, panicked) && Doomed(w0.arches, root) == {}
    requires OnlyLost(g, h) && h.Keys == w.arches.Keys
    ensures !panicked && h == g
  {
    if panicked {
      PanicMeansHazard(w0, g, root, w, order);
    } else {
      var busy := InDemand(w0.arches, root);
      forall p | p in g ensures p in w.arches.Keys {
        CollectNothing(g, busy);
        CollectionIsUnique(g, root, busy, {}, {}, p);
      }
      assert g.Keys - h.Keys == {};
      MinusNothing(g);
    }
  }

  /** Everything reached from an entry with keys has keys. */
  lemma {:induction false} ReachedHasKeys(g: Graph, root: Ptr, path: seq<Ptr>)
    requires GraphInv(g, root) && IsPath(g, path) && path[0] in g && g[path[0]].keys != {}
    ensures path[|path| - 1] != root
  {
    if |path| > 1 {
      assert Leads(g, path[0], path[1]);
      var k :| k in g[path[0]].ext && g[path[0]].ext[k] == path[1];
      assert NodeOk(g, path[0]) && ExtOk(g, path[0], k);
      assert k in g[path[1]].keys;
      assert forall i :: 0 <= i < |path| - 1 ==> path[1..][i] == path[i + 1];
      assert IsPath(g, path[1..]) by {
        forall i | 0 <= i < |path| - 2 ensures Leads(g, path[1..][i], path[1..][i + 1]) {
          assert Leads(g, path[i + 1], path[i + 2]);
        }
      }
      ReachedHasKeys(g, root, path[1..]);
    }
  }

  ghost predicate TaggedSteppingStone(g: Graph, p: Ptr) {
    IsSteppingStone(g, p) && g[p].keys != {}
  }

  /** A dead entity is still laid out in a stepping stone that has tags. */
  ghost predicate LeftInChain(g: Graph, dead: seq<Dead>) {
    exists i :: 0 <= i < |dead| && TaggedSteppingStone(g, dead[i].phys)
  }

  /** Once everybody is dead, a stepping stone with a cell left begins an abandoned chain. */
  lemma DeadLeaveChain(arches: Arches, g: Graph, root: Ptr, dirty: seq<Entity>, dead: seq<Dead>)
    requires RecordsOk(map[], arches, root, dirty, dead) && GraphInv(g, root) && g.Keys == arches.Keys
    requires LeftInChain(g, dead)
    ensures AbandonedChain(arches, g, root)
  {
    var i :| 0 <= i < |dead| && TaggedSteppingStone(g, dead[i].phys);
    var d := dead[i].phys;
    assert dead[i] in Elems(dead) && DeadOk(map[], arches, root, dead[i]);
    forall a | a in arches && a != root ensures arches[a].virtualCount == 0 {
      assert CountOk(map[], arches, a) && Members(map[], a) == {};
    }
    assert InDemand(arches, root) == {root} && d in Doomed(arches, root);
    forall q | Reaches(g, d, q) ensures q != root {
      var path :| IsPath(g, path) && path[0] == d && path[|path| - 1] == q;
      ReachedHasKeys(g, root, path);
    }
  }

  /** Two archetypes with the same tags are one. */
  lemma SameTags(index: ArchetypeIndex, a: Ptr, b: Ptr)
    requires index.Valid() && a in index.arches && b in index.arches
    requires Elems(index.arches[a].tags) == Elems(index.arches[b].tags)
    ensures a == b
  {
    index.graph.GraphIsOk();
    index.TagsAreKeys(a);
    index.TagsAreKeys(b);
    assert Distinct(index.Graph(), a, b);
  }

  /** Entities 7 and 8, which want the given tags, but are not laid out yet. */
  ghost predicate Spawned(db: DbRoot, tags7: set<Tag>, tags8: set<Tag>)
    reads db, db.index, db.index.graph, db.index.graph.arena, db.comps, db.comps.arena, db.table, db.table.Repr
  {
    && db.Valid() && db.dead == [] && db.queryGuards == 0 && db.alive.Keys == {7, 8}
    && db.alive[7].phys == db.alive[8].phys == db.index.graph.root
    && Wants(db.alive, db.index.arches, 7, tags7) && Wants(db.alive, db.index.arches, 8, tags8)
  }

  method SpawnTwo(db: DbRoot)
    requires db.Valid() && db.alive == map[] && db.dead == [] && db.queryGuards == 0
    modifies db`alive
    ensures Spawned(db, {}, {})
  {
    db.Spawn(7);
    db.Spawn(8);
    db.index.RootHasNoTags();
    assert Elems<Tag>([]) == {};
  }

  /** One more tag for `e`; the other entity wants what it wanted. */
  method TagOne(db: DbRoot, e: Entity, tag: Tag, ghost tags: set<Tag>, ghost other: Entity, ghost theirs: set<Tag>)
    requires db.Valid() && e != other && tag !in tags
    requires Wants(db.alive, db.index.arches, e, tags) && Wants(db.alive, db.index.arches, other, theirs)
    modifies db`alive, db`dirty, db.index, db.index.graph, db.index.graph.arena
    ensures db.Valid() && e in db.alive && db.alive == old(db.alive)[e := old(db.alive)[e].(virt := db.alive[e].virt)]
    ensures Wants(db.alive, db.index.arches, e, tags + {tag}) && Wants(db.alive, db.index.arches, other, theirs)
    ensures IsSteppingStone(db.index.Graph(), old(db.alive)[e].virt)
  {
    ghost var was, arches := db.alive, db.index.arches;
    var _ := db.TagCommon(e, tag, true);
    assert Wants(db.alive, db.index.arches, e, Target(tags, tag, true));
    StillWants(was, arches, db.alive, db.index.arches, e, other, theirs);
    assert tag in tags + {tag};
  }

  lemma StillWants(alive: Alive, arches: Arches, alive': Alive, arches': Arches, e: Entity, other: Entity,
                   tags: set<Tag>)
    requires OthersWantTheSame(alive, arches, alive', arches', e) && other != e && other in alive'
    requires Wants(alive, arches, other, tags)
    ensures Wants(alive', arches', other, tags)
  {
  }

  method TagSeven(db: DbRoot)
    requires Spawned(db, {}, {})
    modifies db`alive, db`dirty, db.index, db.index.graph, db.index.graph.arena
    ensures Spawned(db, {5}, {})
  {
    TagOne(db, 7, 5, {}, 8, {});
    assert {} + {5} == {5};
  }

  method TagEight(db: DbRoot)
    requires Spawned(db, {5}, {})
    modifies db`alive, db`dirty, db.index, db.index.graph, db.index.graph.arena
    ensures Spawned(db, {5}, {5})
  {
    TagOne(db, 8, 5, {}, 7, {5});
    assert {} + {5} == {5};
  }

  method TagEightMore(db: DbRoot)
    requires Spawned(db, {5}, {5})
    modifies db`alive, db`dirty, db.index, db.index.graph, db.index.graph.arena
    ensures Spawned(db, {5}, {5, 6}) && IsSteppingStone(db.index.Graph(), db.alive[7].virt)
  {
    SameTags(db.index, db.alive[7].virt, db.alive[8].virt);
    TagOne(db, 8, 6, {5}, 7, {5});
    assert {5} + {6} == {5, 6};
  }

  /** While nothing is laid out a flush succeeds, and leaves the archetypes and their edges alone. */
  method FirstFlush(db: DbRoot)
    requires db.Valid() && db.dead == [] && db.queryGuards == 0
    requires forall e :: e in db.alive ==> db.alive[e].phys == db.index.graph.root
    modifies db`alive, db`dirty, db`dead, db`flushCount
    modifies db.index, db.index.graph, db.index.graph.arena, db.table.Repr
    ensures db.Valid() && db.dead == [] && SameEntities(old(db.alive), db.alive) && Clean(db.alive)
    ensures db.index.Graph() == old(db.index.Graph()) && db.table.Repr == old(db.table.Repr)
  {
    ghost var w0, g, root := db.Now(), db.index.Graph(), db.index.graph.root;
    assert Elems<Dead>([]) == {};
    NobodyLaidOut(db.alive, db.index.arches, root);
    var outcome, order := db.Flush();
    NothingDeleted(w0, g, root, db.Now(), db.index.Graph(), order, outcome == Panicked);
  }

  /** The flush that lays the two entities out, in an archetype of their own each. */
  method LayOutTwo(db: DbRoot)
    requires Spawned(db, {5}, {5, 6}) && IsSteppingStone(db.index.Graph(), db.alive[7].virt)
    modifies db`alive, db`dirty, db`dead, db`flushCount
    modifies db.index, db.index.graph, db.index.graph.arena, db.table.Repr
    ensures LaidOutTwo(db) && db.table.Repr == old(db.table.Repr)
  {
    ghost var before := db.alive;
    HasTags(db, 7, {5});
    FirstFlush(db);
    InPlace(before, db.alive, 7);
  }

  lemma InPlace(before: Alive, after: Alive, e: Entity)
    requires SameEntities(before, after) && Clean(after) && e in before
    ensures after.Keys == before.Keys && after[e].phys == before[e].virt
  {
    assert after[e].virt == before[e].virt;
  }

  /** Both entities are laid out as they want, entity 7 in a stepping stone that has tags. */
  ghost predicate LaidOutTwo(db: DbRoot)
    reads db, db.index, db.index.graph, db.index.graph.arena, db.comps, db.comps.arena, db.table, db.table.Repr
  {
    && db.Valid() && db.dead == [] && db.queryGuards == 0
    && db.alive.Keys == {7, 8} && Clean(db.alive) && db.alive[7].phys != db.index.graph.root
    && TaggedSteppingStone(db.index.Graph(), db.alive[7].phys)
  }

  lemma HasTags(db: DbRoot, e: Entity, tags: set<Tag>)
    requires db.Valid() && Wants(db.alive, db.index.arches, e, tags) && tags != {}
    ensures db.alive[e].virt in db.index.Graph() && db.index.Graph()[db.alive[e].virt].keys == tags
    ensures db.alive[e].virt != db.index.graph.root
  {
    db.index.TagsAreKeys(db.alive[e].virt);
    db.index.RootHasNoTags();
    assert Elems<Tag>([]) == {};
  }

  /** An entity that is laid out as it wants dies. */
  method Destroy(db: DbRoot, e: Entity)
    requires db.Valid() && e in db.alive && db.alive[e].phys == db.alive[e].virt
    modifies db`alive, db`dead, db.index, db.index.graph, db.index.graph.arena, db.comps, db.comps.arena, db.table
    modifies db.table.Repr
    ensures db.Valid() && db.alive == old(db.alive) - {e} && fresh(db.table.Repr - old(db.table.Repr))
    ensures db.dead == Buried(old(db.dead), e, old(db.alive)[e], db.index.graph.root)
    ensures db.index.Graph() == old(db.index.Graph())
  {
    var _, _, _ := db.Destroy(e);
  }

  /** Entity 7 died; its cell is in a stepping stone that has tags. */
  ghost predicate OneLeft(db: DbRoot)
    reads db, db.index, db.index.graph, db.index.graph.arena, db.comps, db.comps.arena, db.table, db.table.Repr
  {
    && db.Valid() && db.queryGuards == 0 && db.alive.Keys == {8} && Clean(db.alive)
    && LeftInChain(db.index.Graph(), db.dead)
  }

  lemma StillLeft(g: Graph, dead: seq<Dead>, e: Entity, info: Info, root: Ptr)
    requires LeftInChain(g, dead)
    ensures LeftInChain(g, Buried(dead, e, info, root))
  {
    var i :| 0 <= i < |dead| && TaggedSteppingStone(g, dead[i].phys);
    assert Buried(dead, e, info, root)[i] == dead[i];
  }

  method DestroySeven(db: DbRoot)
    requires LaidOutTwo(db)
    modifies db`alive, db`dead, db.index, db.index.graph, db.index.graph.arena, db.comps, db.comps.arena, db.table
    modifies db.table.Repr
    ensures OneLeft(db) && fresh(db.table.Repr - old(db.table.Repr))
  {
    ghost var d := db.alive[7].phys;
    Destroy(db, 7);
    assert db.dead[0].phys == d;
  }

  method DestroyEight(db: DbRoot)
    requires OneLeft(db)
    modifies db`alive, db`dead, db.index, db.index.graph, db.index.graph.arena, db.comps, db.comps.arena, db.table
    modifies db.table.Repr
    ensures db.Valid() && db.alive == map[] && db.queryGuards == 0
    ensures LeftInChain(db.index.Graph(), db.dead)
  {
    StillLeft(db.index.Graph(), db.dead, 8, db.alive[8], db.index.graph.root);
    NobodyLeft(db.alive, 8);
    Destroy(db, 8);
  }

  lemma NobodyLeft(alive: Alive, e: Entity)
    requires alive.Keys == {e}
    ensures alive - {e} == map[]
  {
  }

  lemma ChainIsLeft(db: DbRoot)
    requires db.Valid() && db.alive == map[] && LeftInChain(db.index.Graph(), db.dead)
    ensures AbandonedChain(db.index.arches, db.index.Graph(), db.index.graph.root)
  {
    db.index.graph.GraphIsOk();
    DeadLeaveChain(db.index.arches, db.index.Graph(), db.index.graph.root, db.dirty, db.dead);
  }

  /** Both entities die; their cells stay until the next flush. */
  method DestroyTwo(db: DbRoot)
    requires LaidOutTwo(db)
    modifies db`alive, db`dead, db.index, db.index.graph, db.index.graph.arena, db.comps, db.comps.arena, db.table
    modifies db.table.Repr
    ensures db.Valid() && db.alive == map[] && db.queryGuards == 0
    ensures AbandonedChain(db.index.arches, db.index.Graph(), db.index.graph.root)
  {
    DestroySeven(db);
    DestroyEight(db);
    ChainIsLeft(db);
  }

  lemma SomeOrderPanics(db: DbRoot) returns (order: seq<Ptr>)
    requires db.Valid() && AbandonedChain(db.index.arches, db.index.Graph(), db.index.graph.root)
    ensures PanicsIn(db, order)
  {
    db.index.graph.GraphIsOk();
    var root, arches, g := db.index.graph.root, db.index.arches, db.index.Graph();
    ChainMeansPanic(db.alive, arches, g, root);
    order :| IsOrderOf(order, Doomed(arches, root)) && Panics(g, root, InDemand(arches, root), order);
  }

  /** The next flush panics if it deletes the archetypes it empties in this order. */
  ghost predicate PanicsIn(db: DbRoot, order: seq<Ptr>)
    reads db, db.index, db.index.graph, db.index.graph.arena
  {
    var root, arches, g := db.index.graph.root, db.index.arches, db.index.Graph();
    && GraphInv(g, root) && IsOrderOf(order, Doomed(arches, root)) && Elems(order) <= g.Keys
    && Panics(g, root, InDemand(arches, root), order)
  }

  method PrepareTwo(db: DbRoot)
    requires db.Valid() && db.alive == map[] && db.dead == [] && db.queryGuards == 0
    modifies db`alive, db`dirty, db.index, db.index.graph, db.index.graph.arena
    ensures Spawned(db, {5}, {5, 6}) && IsSteppingStone(db.index.Graph(), db.alive[7].virt)
  {
    SpawnTwo(db);
    TagSeven(db);
    TagEight(db);
    TagEightMore(db);
  }

  method SettleTwo(db: DbRoot)
    requires db.Valid() && db.alive == map[] && db.dead == [] && db.queryGuards == 0
    modifies db`alive, db`dirty, db`dead, db`flushCount
    modifies db.index, db.index.graph, db.index.graph.arena, db.table.Repr
    ensures LaidOutTwo(db) && db.table.Repr == old(db.table.Repr)
  {
    PrepareTwo(db);
    LayOutTwo(db);
  }

  /** Three changes of an empty database's two new entities, a flush and two deaths later, the next flush panics
      if the hash set of emptied archetypes happens to be iterated in the given order. */
  method RunToPanic(db: DbRoot) returns (ghost order: seq<Ptr>)
    requires db.Valid() && db.alive == map[] && db.dead == [] && db.queryGuards == 0
    modifies db, db.index, db.index.graph, db.index.graph.arena, db.comps, db.comps.arena, db.table, db.table.Repr
    ensures db.Valid() && db.alive == map[] && db.queryGuards == 0 && PanicsIn(db, order)
  {
    SettleTwo(db);
    DestroyTwo(db);
    order := SomeOrderPanics(db);
  }
}
