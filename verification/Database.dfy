/** The database (`src/database.rs`, `DbRoot`). */
module Databases {
  import opened Iters
  import opened Sorting
  import opened Arena
  import opened KeyGraph
  import opened SetMaps
  import opened Collector
  import opened Heaps
  import opened Archetypes
  import opened Layout
  import opened StorageViews
  import opened Storages
  import opened StorageTables
  import opened DbState
  import opened ArchetypeIndexes
  import opened FlushState
  import opened DbSteps

  datatype FlushOutcome = Flushed | ConcurrentFlush | Panicked

  datatype InsertOutcome = CannotInsert | Inserted(replaced: Option<Value>, handle: SlotId)

  datatype RemoveOutcome = CannotRemove | Removed(value: Option<Value>)

  class DbRoot {
    var alive: Alive
    /** The component lists in use; they are never freed. */
    const comps: SetMap
    const index: ArchetypeIndex
    const table: StorageTable
    var dirty: seq<Entity>
    var dead: seq<Dead>

    /** Shared borrows of the guard that running queries hold. */
    var queryGuards: nat
    var flushCount: int

    constructor (index: ArchetypeIndex, comps: SetMap, table: StorageTable)
      requires index.Repr == {index, index.graph, index.graph.arena} && comps.Repr == {comps, comps.arena}
      requires comps != index.graph && comps.arena != index.graph.arena
      requires table.Repr == {table}
      ensures this.index == index && this.comps == comps && this.table == table && Shape()
      ensures alive == map[] && dirty == [] && dead == [] && flushCount == 0 && queryGuards == 0
    {
      this.index, this.comps, this.table := index, comps, table;
      alive, dirty, dead := map[], [], [];
      flushCount, queryGuards := 0, 0;
    }

    lemma EmptyIsValid()
      requires Sound() && index.Graph().Keys == {index.graph.root} && index.arches.Keys == {index.graph.root}
      requires HasNoHeaps(index.arches[index.graph.root])
      requires alive == map[] && table.views == map[] && dirty == [] && dead == []
      ensures Valid()
    {
      assert index.arches == map[index.graph.root := index.arches[index.graph.root]];
    }

    ghost predicate Shape()
      reads this, index, comps, table
    {
      && index.Repr == {index, index.graph, index.graph.arena}
      && comps.Repr == {comps, comps.arena}
      && comps != index.graph && comps.arena != index.graph.arena
      && table in table.Repr
      && this !in table.Repr && index !in table.Repr && index.graph !in table.Repr && index.graph.arena !in table.Repr
      && comps !in table.Repr && comps.arena !in table.Repr
    }

    ghost predicate Sound()
      reads this, index, index.graph, index.graph.arena, comps, comps.arena, table, table.Repr
    {
      Shape() && index.Valid() && comps.Valid() && table.Valid()
    }

    /** The invariant, where storages see entities at `place` (an entity being destroyed is still there)
        and only archetypes in `idle` may be unused. */
    ghost predicate ValidFor(place: Alive, idle: set<Ptr>)
      reads this, index, index.graph, index.graph.arena, comps, comps.arena, table, table.Repr
    {
      && Sound()
      && RecordsOk(alive, index.arches, index.graph.root, dirty, dead)
      && NoIdleBut(index.Graph(), Busy(index.arches, index.graph.root), idle)
      && StoresOk(table.views, place, index.arches)
      && ListsOk(alive, table.views, comps.arena.live)
    }

    ghost predicate Valid()
      reads this, index, index.graph, index.graph.arena, comps, comps.arena, table, table.Repr
    {
      ValidFor(alive, {})
    }

    // === Flushing, phase 1: dead entities === //

    /** Drops the last entity of an archetype, and its last heap once that is empty. */
    method PopLast(a: Ptr, trunc: set<Ptr>, del: set<Ptr>, ghost w0: World) returns (trunc': set<Ptr>, del': set<Ptr>)
      requires a in index.arches && a != index.graph.root && ArchOk(index.arches[a]) && |index.arches[a].heaps| > 0
      requires HasCell(index.arches[a], LastPos(index.arches[a]))
      requires Reshaping(w0.arches, index.arches, table.views, index.graph.root, trunc, del)
      modifies index`arches
      ensures index.arches == old(index.arches)[a := Popped(old(index.arches)[a])]
      ensures Reshaping(w0.arches, index.arches, table.views, index.graph.root, trunc', del')
    {
      var arch := index.arches[a];
      trunc', del' := trunc, del;
      arch := arch.(lastHeapLen := arch.lastHeapLen - 1);
      arch := WithCell(arch, Pos(|arch.heaps| - 1, arch.lastHeapLen), PLACEHOLDER);
      if arch.lastHeapLen == 0 {
        arch := arch.(heaps := arch.heaps[..|arch.heaps| - 1]);
        trunc' := trunc' + {a};
        if arch.heaps == [] {
          del' := del' + {a};
        } else {
          arch := arch.(lastHeapLen := |arch.heaps[|arch.heaps| - 1]|);
        }
      }
      assert arch == Popped(index.arches[a]);
      ReshapedOne(w0.arches, index.arches, table.views, index.graph.root, trunc, del, a, arch, trunc', del');
      index.arches := index.arches[a := arch];
    }

    /** The filler for a swap-remove: dead entities at the back are popped until a live one turns up. */
    method PruneTail(a: Ptr, trunc: set<Ptr>, del: set<Ptr>, ghost w0: World, ghost pending: set<Dead>)
      returns (last: Option<Entity>, trunc': set<Ptr>, del': set<Ptr>)
      requires a in index.arches && a != index.graph.root
      requires Mirrored(alive, index.arches, index.graph.root, pending)
      requires Reshaping(w0.arches, index.arches, table.views, index.graph.root, trunc, del)
      modifies index`arches
      ensures Mirrored(alive, index.arches, index.graph.root, pending)
      ensures Reshaping(w0.arches, index.arches, table.views, index.graph.root, trunc', del')
      ensures a in index.arches && SameButHeaps(old(index.arches), index.arches)
      ensures last.None? ==> index.arches[a].heaps == []
      ensures last.Some? ==>
        && index.arches[a].heaps != [] && last.value in alive
        && At(index.arches[a], LastPos(index.arches[a])) == last
    {
      trunc', del' := trunc, del;
      while index.arches[a].heaps != []
        invariant a in index.arches && SameButHeaps(old(index.arches), index.arches)
        invariant Mirrored(alive, index.arches, index.graph.root, pending)
        invariant Reshaping(w0.arches, index.arches, table.views, index.graph.root, trunc', del')
        decreases |index.arches[a].heaps|, index.arches[a].lastHeapLen
      {
        var arch := index.arches[a];
        LastIsOccupied(arch);
        var entity := arch.heaps[|arch.heaps| - 1][arch.lastHeapLen - 1];
        if entity in alive {
          return Some(entity), trunc', del';
        }
        // It is dead, so it must not be moved around.
        PopDeadKeepsMirror(alive, index.arches, index.graph.root, pending, a);
        PoppedOutcome(arch);
        trunc', del' := PopLast(a, trunc', del', w0);
      }
      last := None;
    }

    /** One dead entity leaves its archetype, unless popping already took it. */
    method PurgeOne(d: Dead, trunc: set<Ptr>, del: set<Ptr>, ghost w0: World, ghost pending: set<Dead>)
      returns (trunc': set<Ptr>, del': set<Ptr>)
      requires Shape() && table.Valid() && d in pending
      requires Mirrored(alive, index.arches, index.graph.root, pending)
      requires Underway(w0, alive, index.arches, table.views, index.graph.root, trunc, del)
      modifies this`alive, index`arches, table.Repr
      ensures Shape() && table.Valid() && table.Repr == old(table.Repr)
      ensures Mirrored(alive, index.arches, index.graph.root, pending - {d})
      ensures Underway(w0, alive, index.arches, table.views, index.graph.root, trunc', del')
      ensures SamePhys(old(alive), alive)
    {
      var a := d.phys;
      assert DeadOk(alive, index.arches, index.graph.root, d);
      ghost var before := index.arches;
      var last;
      last, trunc', del' := PruneTail(a, trunc, del, w0, pending);
      SameManaged(before, index.arches);
      var arch := index.arches[a];
      assert DeadOk(alive, index.arches, index.graph.root, d);
      if last.Some? {
        SkipTestsAreExact(arch, d.Place());
      }
      if last.None? || (d.heapIndex == |arch.heaps| - 1 && d.slotIndex >= arch.lastHeapLen)
          || d.heapIndex >= |arch.heaps| {
        ForgetKeepsMirror(alive, index.arches, index.graph.root, pending, d);
        return;
      }
      trunc', del' := SwapIn(d, last.value, trunc', del', w0, pending);
    }

    /** The live last entity takes the place of a dead one. */
    method SwapIn(d: Dead, last: Entity, trunc: set<Ptr>, del: set<Ptr>, ghost w0: World, ghost pending: set<Dead>)
      returns (trunc': set<Ptr>, del': set<Ptr>)
      requires Shape() && table.Valid() && d in pending && d.phys in index.arches && last in alive
      requires Mirrored(alive, index.arches, index.graph.root, pending)
      requires At(index.arches[d.phys], d.Place()) != None
      requires At(index.arches[d.phys], LastPos(index.arches[d.phys])) == Some(last)
      requires Underway(w0, alive, index.arches, table.views, index.graph.root, trunc, del)
      modifies this`alive, index`arches, table.Repr
      ensures Shape() && table.Valid() && table.Repr == old(table.Repr)
      ensures Mirrored(alive, index.arches, index.graph.root, pending - {d})
      ensures Underway(w0, alive, index.arches, table.views, index.graph.root, trunc', del')
      ensures SamePhys(old(alive), alive)
    {
      assert DeadOk(alive, index.arches, index.graph.root, d) && ArchOk(index.arches[d.phys]);
      CanFillDead(alive, index.arches, index.graph.root, pending, d, last);
      FillDeadKeepsMirror(alive, index.arches, index.graph.root, pending, d, last);
      trunc', del' := FillDead(d.phys, d.Place(), last, trunc, del, w0);
    }

    /** Replaces a cell by the last entity, which is told so, then pops that. */
    method FillCell(a: Ptr, here: Pos, last: Entity, trunc: set<Ptr>, del: set<Ptr>, ghost w0: World)
      returns (trunc': set<Ptr>, del': set<Ptr>)
      requires last in alive
      requires a in index.arches && a != index.graph.root && ArchOk(index.arches[a])
      requires Occupied(index.arches[a], here) && here != LastPos(index.arches[a])
      requires HasCell(index.arches[a], here)
      requires HasCell(WithCell(index.arches[a], here, last), LastPos(index.arches[a]))
      requires Reshaping(w0.arches, index.arches, table.views, index.graph.root, trunc, del)
      modifies this`alive, index`arches
      ensures index.arches == old(index.arches)[a := Filled(old(index.arches)[a], here, last)]
      ensures alive == old(alive)[last := old(alive)[last].MovedTo(a, here)]
      ensures SameButHeaps(old(index.arches), index.arches)
      ensures Reshaping(w0.arches, index.arches, table.views, index.graph.root, trunc', del')
    {
      var arch := index.arches[a];
      WithCellOutcome(arch, here, last);
      ReshapedOne(w0.arches, index.arches, table.views, index.graph.root, trunc, del, a, WithCell(arch, here, last),
                  trunc, del);
      index.arches := index.arches[a := WithCell(arch, here, last)];
      alive := alive[last := alive[last].MovedTo(a, here)];
      trunc', del' := PopLast(a, trunc, del, w0);
    }

    /** The swap-remove: the last entity moves into the cell at `here`, and its components with it. */
    method FillDead(a: Ptr, here: Pos, last: Entity, trunc: set<Ptr>, del: set<Ptr>, ghost w0: World)
      returns (trunc': set<Ptr>, del': set<Ptr>)
      requires Shape() && table.Valid()
      requires a in index.arches && a != index.graph.root && ArchOk(index.arches[a])
      requires Occupied(index.arches[a], here) && here != LastPos(index.arches[a])
      requires HasCell(index.arches[a], here)
      requires HasCell(WithCell(index.arches[a], here, last), LastPos(index.arches[a]))
      requires Underway(w0, alive, index.arches, table.views, index.graph.root, trunc, del)
      requires last in alive && alive[last].phys == a
      requires CanMove(alive, ManagedOf(index.arches), last, alive[last].MovedTo(a, here), a,
        Filled(index.arches[a], here, last))
      modifies this`alive, index`arches, table.Repr
      ensures Shape() && table.Valid() && table.Repr == old(table.Repr)
      ensures index.arches == old(index.arches)[a := Filled(old(index.arches)[a], here, last)]
      ensures alive == old(alive)[last := old(alive)[last].MovedTo(a, here)]
      ensures Underway(w0, alive, index.arches, table.views, index.graph.root, trunc', del')
    {
      ghost var place, arches := alive, index.arches;
      trunc', del' := FillCell(a, here, last, trunc, del, w0);
      SameManaged(arches, index.arches);
      var types := InAnyOrder(index.arches[a].managed);
      Carry(last, alive[last], a, types, place, w0, trunc', del');
    }

    /** Carries the components of an entity, of every type its old or its new archetype manages, to its
        new place. */
    method Carry(e: Entity, info: Info, src: Ptr, types: seq<CompType>, ghost place: Alive,
                 ghost w0: World, ghost trunc: set<Ptr>, ghost del: set<Ptr>)
      requires Shape() && table.Valid() && info.phys in index.arches && src in index.arches
      requires AllSettled(table.views, place, ManagedOf(index.arches)) && AllSame(w0.views, table.views)
      requires Reshaping(w0.arches, index.arches, table.views, index.graph.root, trunc, del)
      requires CanMove(place, ManagedOf(index.arches), e, info, src, index.arches[info.phys])
      requires NoRepeats(types)
      requires index.arches[src].managed + index.arches[info.phys].managed <= Elems(types)
      modifies table.Repr
      ensures Shape() && table.Valid() && table.Repr == old(table.Repr)
      ensures AllSettled(table.views, place[e := info], ManagedOf(index.arches)) && AllSame(w0.views, table.views)
      ensures Reshaping(w0.arches, index.arches, table.views, index.graph.root, trunc, del)
    {
      ghost var views := table.views;
      assert forall t :: t in ManagedOf(index.arches)[src] || t in ManagedOf(index.arches)[info.phys] ==>
        t in Elems(types);
      table.MoveEach(types, e, info, src, index.arches[info.phys], place, ManagedOf(index.arches));
      AllSameTrans(w0.views, views, table.views);
      CarriedKeepsTrim(views, table.views, place[e := info], index.arches, index.graph.root, trunc, info);
    }

    /** All dead entities leave. */
    method PurgeDead(ghost w0: World) returns (trunc: set<Ptr>, del: set<Ptr>)
      requires Shape() && table.Valid() && NoRepeats(dead)
      requires Mirrored(alive, index.arches, index.graph.root, Elems(dead))
      requires Underway(w0, alive, index.arches, table.views, index.graph.root, {}, {})
      modifies this`alive, this`dead, index`arches, table.Repr
      ensures Shape() && table.Valid() && table.Repr == old(table.Repr) && dead == []
      ensures Mirrored(alive, index.arches, index.graph.root, {})
      ensures Underway(w0, alive, index.arches, table.views, index.graph.root, trunc, del)
      ensures SamePhys(old(alive), alive)
    {
      var list := dead;
      dead := [];
      trunc, del := {}, {};
      var i := 0;
      assert list[0..] == list;
      while i < |list|
        invariant 0 <= i <= |list| && dead == []
        invariant Shape() && table.Valid() && table.Repr == old(table.Repr)
        invariant Mirrored(alive, index.arches, index.graph.root, Elems(list[i..]))
        invariant Underway(w0, alive, index.arches, table.views, index.graph.root, trunc, del)
        invariant SamePhys(old(alive), alive)
      {
        RestWithoutHead(list, i);
        trunc, del := PurgeOne(list[i], trunc, del, w0, Elems(list[i..]));
        i := i + 1;
      }
      assert list[i..] == [] && Elems<Dead>([]) == {};
    }

    // === Flushing, phase 2: live entities === //

    /** Moves an entity whose archetypes differ: into its new archetype first, then the last entity of the
        old one into its cell. */
    method MoveTarget(e: Entity, trunc: set<Ptr>, del: set<Ptr>, ghost w0: World)
      returns (trunc': set<Ptr>, del': set<Ptr>)
      requires Shape() && table.Valid() && e in alive && alive[e].phys != alive[e].virt
      requires Mirrored(alive, index.arches, index.graph.root, {}) && WellBuilt(index.arches, index.graph.root)
      requires Underway(w0, alive, index.arches, table.views, index.graph.root, trunc, del)
      requires Wanted(w0.alive, w0.arches, index.graph.root)
      modifies this`alive, index`arches, table.Repr
      ensures Shape() && table.Valid() && table.Repr == old(table.Repr)
      ensures Mirrored(alive, index.arches, index.graph.root, {})
      ensures Underway(w0, alive, index.arches, table.views, index.graph.root, trunc', del')
      ensures MovedToVirtual(old(alive), alive, e)
    {
      var src, here := alive[e].phys, alive[e].Place();
      MirroredMayEnter(alive, index.arches, index.graph.root, e);
      Enter(e, trunc, del, w0);
      ghost var mid, arches := alive, index.arches;
      // The root manages no heaps, so there is nothing to manage in it.
      if src == index.graph.root {
        trunc', del' := trunc, del;
        NoHoleInRoot(alive, index.arches, index.graph.root, here);
        return;
      }
      HoleMayBackfill(alive, index.arches, index.graph.root, src, here);
      trunc', del' := Leave(src, here, trunc, del, w0);
      BackfilledKeepsMirror(mid, arches, alive, index.arches, index.graph.root, src, here);
    }

    /** Lays the entity out at the end of its new archetype. */
    method Enter(e: Entity, ghost trunc: set<Ptr>, ghost del: set<Ptr>, ghost w0: World)
      requires Shape() && table.Valid() && WellBuilt(index.arches, index.graph.root)
      requires MayEnter(alive, index.arches, index.graph.root, e) && Wanted(w0.alive, w0.arches, index.graph.root)
      requires Underway(w0, alive, index.arches, table.views, index.graph.root, trunc, del)
      modifies this`alive, index`arches, table.Repr
      ensures Shape() && table.Valid() && table.Repr == old(table.Repr)
      ensures alive == old(alive)[e := EnteredInfo(old(alive), old(index.arches), index.graph.root, e)]
      ensures index.arches == EnteredArches(old(alive), old(index.arches), index.graph.root, e)
      ensures Underway(w0, alive, index.arches, table.views, index.graph.root, trunc, del)
    {
      var src, dst := alive[e].phys, alive[e].virt;
      ghost var place, arches := alive, index.arches;
      var types := EitherManaged(index.arches[src], index.arches[dst]);
      LayOut(e, trunc, del, w0);
      SameManaged(arches, index.arches);
      Carry(e, alive[e], src, types, place, w0, trunc, del);
    }

    /** Updates the entity's record, after appending it to its new archetype. */
    method LayOut(e: Entity, ghost trunc: set<Ptr>, ghost del: set<Ptr>, ghost w0: World)
      requires e in alive && alive[e].virt in index.arches && ArchOk(index.arches[alive[e].virt])
      requires Reshaping(w0.arches, index.arches, table.views, index.graph.root, trunc, del)
      requires Wanted(w0.alive, w0.arches, index.graph.root) && SameEntities(w0.alive, alive)
      modifies this`alive, index`arches
      ensures alive == old(alive)[e := EnteredInfo(old(alive), old(index.arches), index.graph.root, e)]
      ensures index.arches == EnteredArches(old(alive), old(index.arches), index.graph.root, e)
      ensures SameButHeaps(old(index.arches), index.arches)
      ensures Reshaping(w0.arches, index.arches, table.views, index.graph.root, trunc, del)
    {
      var dst := alive[e].virt;
      if dst == index.graph.root {
        // The root manages no heaps, so nothing is laid out there.
        alive := alive[e := alive[e].(phys := dst)];
      } else {
        var next := Push(dst, e, trunc, del, w0);
        alive := alive[e := alive[e].MovedTo(dst, next)];
      }
    }

    /** The types either of two archetypes manages, each once. */
    method EitherManaged(src: Arch, dst: Arch) returns (types: seq<CompType>)
      requires WellBuiltArch(src) && WellBuiltArch(dst)
      ensures Ascending(types) && Elems(types) == src.managed + dst.managed
    {
      types := MergeIters(src.managedSorted, dst.managedSorted);
      MergedIsSorted(src.managedSorted, dst.managedSorted);
      MergedElems(src.managedSorted, dst.managedSorted);
      DeduplicatedIsAscending(types);
      types := FilterDuplicates(types);
    }

    /** Appends an entity to an archetype, in a new heap if the last one is full. */
    method Push(dst: Ptr, e: Entity, ghost trunc: set<Ptr>, ghost del: set<Ptr>, ghost w0: World) returns (next: Pos)
      requires dst in index.arches && dst != index.graph.root && ArchOk(index.arches[dst])
      requires dst in w0.arches && Used(w0.arches[dst])
      requires Reshaping(w0.arches, index.arches, table.views, index.graph.root, trunc, del)
      modifies index`arches
      ensures index.arches == old(index.arches)[dst := Pushed(old(index.arches)[dst], e)]
      ensures SameButHeaps(old(index.arches), index.arches)
      ensures next == NextPos(old(index.arches)[dst])
      ensures Reshaping(w0.arches, index.arches, table.views, index.graph.root, trunc, del)
    {
      var arch := index.arches[dst];
      var lastCap := if |arch.heaps| > 0 then |arch.heaps[|arch.heaps| - 1]| else 0;
      if arch.lastHeapLen == lastCap {
        var cap := if lastCap * 2 > 128 then lastCap * 2 else 128;
        var heap := seq(cap, _ => PLACEHOLDER)[0 := e];
        arch := arch.(heaps := arch.heaps + [heap], lastHeapLen := 1);
      } else {
        // In debug builds the cell was reset when it was vacated.
        assert arch.heaps[|arch.heaps| - 1][arch.lastHeapLen] == PLACEHOLDER;
        arch := WithCell(arch, Pos(|arch.heaps| - 1, arch.lastHeapLen), e);
        arch := arch.(lastHeapLen := arch.lastHeapLen + 1);
      }
      next := Pos(|arch.heaps| - 1, arch.lastHeapLen - 1);
      assert arch == Pushed(index.arches[dst], e);
      ReshapedOne(w0.arches, index.arches, table.views, index.graph.root, trunc, del, dst, arch, trunc, del);
      index.arches := index.arches[dst := arch];
    }

    /** Closes the hole the entity left in its old archetype. */
    method Leave(src: Ptr, here: Pos, trunc: set<Ptr>, del: set<Ptr>, ghost w0: World)
      returns (trunc': set<Ptr>, del': set<Ptr>)
      requires Shape() && table.Valid() && MayBackfill(alive, index.arches, index.graph.root, src, here)
      requires Underway(w0, alive, index.arches, table.views, index.graph.root, trunc, del)
      modifies this`alive, index`arches, table.Repr
      ensures Shape() && table.Valid() && table.Repr == old(table.Repr)
      ensures Backfilled(old(alive), old(index.arches), alive, index.arches, src, here)
      ensures Underway(w0, alive, index.arches, table.views, index.graph.root, trunc', del')
    {
      var arch := index.arches[src];
      LastIsOccupied(arch);
      if here.heap != |arch.heaps| - 1 || here.slot != arch.lastHeapLen - 1 {
        BackfilledByFilling(alive, index.arches, index.graph.root, src, here);
        FillHole(src, here, trunc, del, w0);
      }
      trunc', del' := Shrink(src, trunc, del, w0);
    }

    /** Drops the last entity, whose components are elsewhere by now. */
    method Shrink(a: Ptr, trunc: set<Ptr>, del: set<Ptr>, ghost w0: World) returns (trunc': set<Ptr>, del': set<Ptr>)
      requires Shape() && table.Valid()
      requires a in index.arches && a != index.graph.root && ArchOk(index.arches[a]) && |index.arches[a].heaps| > 0
      requires HasCell(index.arches[a], LastPos(index.arches[a]))
      requires Underway(w0, alive, index.arches, table.views, index.graph.root, trunc, del)
      modifies index`arches
      ensures Shape() && table.Valid()
      ensures index.arches == old(index.arches)[a := Popped(old(index.arches)[a])]
      ensures Underway(w0, alive, index.arches, table.views, index.graph.root, trunc', del')
    {
      ghost var before := index.arches;
      trunc', del' := PopLast(a, trunc, del, w0);
      SameManaged(before, index.arches);
    }

    /** The last entity moves into the hole, and its components with it. */
    method FillHole(src: Ptr, here: Pos, ghost trunc: set<Ptr>, ghost del: set<Ptr>, ghost w0: World)
      requires Shape() && table.Valid()
      requires MayBackfill(alive, index.arches, index.graph.root, src, here) && here != LastPos(index.arches[src])
      requires Underway(w0, alive, index.arches, table.views, index.graph.root, trunc, del)
      modifies this`alive, index`arches, table.Repr
      ensures Shape() && table.Valid() && table.Repr == old(table.Repr)
      ensures var last := At(old(index.arches)[src], LastPos(old(index.arches)[src])).value;
        && alive == old(alive)[last := old(alive)[last].MovedTo(src, here)]
        && index.arches == old(index.arches)[src := WithCell(old(index.arches)[src], here, last)]
      ensures Underway(w0, alive, index.arches, table.views, index.graph.root, trunc, del)
    {
      ghost var place, arches := alive, index.arches;
      var last := RefillCell(src, here, trunc, del, w0);
      SameManaged(arches, index.arches);
      var types := InAnyOrder(index.arches[src].managed);
      Carry(last, alive[last], src, types, place, w0, trunc, del);
    }

    /** Replaces a cell by the last entity, which is told so. */
    method RefillCell(src: Ptr, here: Pos, ghost trunc: set<Ptr>, ghost del: set<Ptr>, ghost w0: World)
      returns (last: Entity)
      requires MayBackfill(alive, index.arches, index.graph.root, src, here) && here != LastPos(index.arches[src])
      requires Reshaping(w0.arches, index.arches, table.views, index.graph.root, trunc, del)
      modifies this`alive, index`arches
      ensures At(old(index.arches)[src], LastPos(old(index.arches)[src])) == Some(last)
      ensures alive == old(alive)[last := old(alive)[last].MovedTo(src, here)]
      ensures index.arches == old(index.arches)[src := WithCell(old(index.arches)[src], here, last)]
      ensures SameButHeaps(old(index.arches), index.arches)
      ensures Reshaping(w0.arches, index.arches, table.views, index.graph.root, trunc, del)
    {
      var arch := index.arches[src];
      last := arch.heaps[|arch.heaps| - 1][arch.lastHeapLen - 1];
      ReshapedOne(w0.arches, index.arches, table.views, index.graph.root, trunc, del, src, WithCell(arch, here, last),
                  trunc, del);
      index.arches := index.arches[src := WithCell(arch, here, last)];
      alive := alive[last := alive[last].MovedTo(src, here)];
    }

    /** The first of the dirty entities moves, if it is still alive and still dirty. */
    method MoveNext(target: Entity, ghost rest: seq<Entity>, trunc: set<Ptr>, del: set<Ptr>, ghost w0: World)
      returns (trunc': set<Ptr>, del': set<Ptr>)
      requires Shape() && table.Valid()
      requires Mirrored(alive, index.arches, index.graph.root, {})
      requires Underway(w0, alive, index.arches, table.views, index.graph.root, trunc, del)
      requires Wanted(w0.alive, w0.arches, index.graph.root) && WellBuilt(w0.arches, index.graph.root)
      requires DirtyListed(alive, [target] + rest)
      modifies this`alive, index`arches, table.Repr
      ensures Shape() && table.Valid() && table.Repr == old(table.Repr)
      ensures Mirrored(alive, index.arches, index.graph.root, {})
      ensures Underway(w0, alive, index.arches, table.views, index.graph.root, trunc', del')
      ensures DirtyListed(alive, rest)
    {
      trunc', del' := trunc, del;
      ghost var before := alive;
      if target in alive && alive[target].phys != alive[target].virt {
        SameButHeapsKeepsBuild(w0.arches, index.arches, index.graph.root);
        trunc', del' := MoveTarget(target, trunc', del', w0);
      }
      TargetIsDone(before, alive, target, rest);
    }

    /** All dirty entities that are still alive move. */
    method MoveAlive(trunc: set<Ptr>, del: set<Ptr>, ghost w0: World) returns (trunc': set<Ptr>, del': set<Ptr>)
      requires Shape() && table.Valid()
      requires Mirrored(alive, index.arches, index.graph.root, {})
      requires Underway(w0, alive, index.arches, table.views, index.graph.root, trunc, del)
      requires Wanted(w0.alive, w0.arches, index.graph.root) && WellBuilt(w0.arches, index.graph.root)
      requires DirtyListed(alive, dirty)
      modifies this`alive, this`dirty, index`arches, table.Repr
      ensures Shape() && table.Valid() && table.Repr == old(table.Repr) && dirty == []
      ensures Mirrored(alive, index.arches, index.graph.root, {}) && Clean(alive)
      ensures Underway(w0, alive, index.arches, table.views, index.graph.root, trunc', del')
    {
      var targets := dirty;
      dirty := [];
      trunc', del' := trunc, del;
      var i := 0;
      assert targets[0..] == targets;
      while i < |targets|
        invariant 0 <= i <= |targets| && dirty == []
        invariant Shape() && table.Valid() && table.Repr == old(table.Repr)
        invariant Mirrored(alive, index.arches, index.graph.root, {})
        invariant Underway(w0, alive, index.arches, table.views, index.graph.root, trunc', del')
        invariant DirtyListed(alive, targets[i..])
      {
        assert targets[i..] == [targets[i]] + targets[i + 1..];
        trunc', del' := MoveNext(targets[i], targets[i + 1..], trunc', del', w0);
        i := i + 1;
      }
    }

    // === Flushing, phase 3: truncation === //

    /** Storages drop the component heaps past the entity heaps. */
    method TruncateAll(trunc: set<Ptr>, ghost del: set<Ptr>, ghost w0: World)
      requires Shape() && table.Valid() && Mirrored(alive, index.arches, index.graph.root, {})
      requires Underway(w0, alive, index.arches, table.views, index.graph.root, trunc, del)
      modifies table.Repr
      ensures Shape() && table.Valid() && table.Repr == old(table.Repr)
      ensures Underway(w0, alive, index.arches, table.views, index.graph.root, {}, del)
    {
      var rest := trunc;
      while rest != {}
        invariant Shape() && table.Valid() && table.Repr == old(table.Repr)
        invariant Underway(w0, alive, index.arches, table.views, index.graph.root, rest, del)
        decreases rest
      {
        var a := AnyOf(rest);
        ghost var views := table.views;
        EntitiesAreWithin(alive, index.arches, index.graph.root, a);
        var types := InAnyOrder(index.arches[a].managed);
        assert forall t :: t in ManagedOf(index.arches)[a] ==> t in Elems(types);
        table.TruncateEach(types, a, |index.arches[a].heaps|, alive, ManagedOf(index.arches));
        TruncatedOne(w0, alive, index.arches, views, table.views, index.graph.root, rest, del, a);
        rest := rest - {a};
      }
    }

    // === Flushing === //

    /** Everything but the deletion: brings the layout in line with what entities want. */
    method Reconcile(ghost w0: World) returns (del: set<Ptr>)
      requires Shape() && table.Valid() && w0 == World(alive, index.arches, table.views)
      requires RecordsOk(alive, index.arches, index.graph.root, dirty, dead)
      requires WellBuilt(index.arches, index.graph.root)
      requires StoresOk(table.views, alive, index.arches)
      modifies this`alive, this`dirty, this`dead, this`flushCount, index`arches, table.Repr
      ensures Shape() && table.Valid() && table.Repr == old(table.Repr)
      ensures dirty == [] && dead == [] && Clean(alive) && flushCount == old(flushCount) + 1
      ensures Mirrored(alive, index.arches, index.graph.root, {})
      ensures Underway(w0, alive, index.arches, table.views, index.graph.root, {}, del)
    {
      flushCount := flushCount + 1;
      ReadyToReconcile(w0, dirty, dead, index.graph.root);
      var trunc;
      trunc, del := PurgeDead(w0);
      trunc, del := MoveAlive(trunc, del, w0);
      TruncateAll(trunc, del, w0);
    }

    /** The invariant after the reconciliation, when unused archetypes have yet to be deleted. */
    method ReconcileAll(ghost w0: World) returns (del: set<Ptr>)
      requires Valid() && w0 == World(alive, index.arches, table.views)
      modifies this`alive, this`dirty, this`dead, this`flushCount, index`arches, table.Repr
      ensures flushCount == old(flushCount) + 1
      ensures ValidFor(alive, del) && dirty == [] && dead == [] && Clean(alive) && del <= index.arches.Keys
      ensures SameEntities(w0.alive, alive) && SameButHeaps(w0.arches, index.arches) && AllSame(w0.views, table.views)
      ensures Busy(index.arches, index.graph.root) == InDemand(w0.arches, index.graph.root)
      ensures del - Busy(index.arches, index.graph.root) == Doomed(w0.arches, index.graph.root)
      ensures index.Graph() == old(index.Graph()) && table.Repr == old(table.Repr)
    {
      index.Built();
      del := Reconcile(w0);
      index.StillIndexed();
      ReconciledIsOk(w0, alive, index.arches, table.views, index.graph.root, index.Graph(), old(dirty), old(dead), del,
                     comps.arena.live);
    }

    method RemoveInOrder(order: seq<Ptr>, ghost busy: set<Ptr>)
      returns (panicked: bool, ghost count: int, ghost r: set<Ptr>)
      requires Sound() && Elems(order) <= index.arches.Keys && busy == Busy(index.arches, index.graph.root)
      modifies index, index.graph, index.graph.arena
      ensures Sound()
      ensures Deleting(old(index.Graph()), index.graph.root, busy, order, count, r)
      ensures panicked ==> count < |order| && order[count] in r
      ensures !panicked ==> count == |order|
      ensures index.Graph() == Minus(old(index.Graph()), r) && index.arches == old(index.arches) - r
    {
      panicked, count, r := index.RemoveInOrder(order, busy);
    }

    /** The last part of a flush. */
    method DeleteUnused(del: set<Ptr>) returns (panicked: bool, order: seq<Ptr>)
      requires ValidFor(alive, del) && dirty == [] && dead == [] && del <= index.arches.Keys
      modifies index, index.graph, index.graph.arena
      ensures ValidFor(alive, if panicked then del else {})
      ensures KeptArches(old(index.arches), index.arches)
      ensures IsOrderOf(order, del) && GraphInv(old(index.Graph()), index.graph.root) && del <= old(index.Graph()).Keys
      ensures panicked <==>
        Panics(old(index.Graph()), index.graph.root, old(Busy(index.arches, index.graph.root)), order)
      ensures OnlyLost(old(index.Graph()), index.Graph())
      ensures !panicked ==>
        var busy := old(Busy(index.arches, index.graph.root));
        Leaves(old(index.Graph()), index.graph.root, busy, del - busy, index.arches.Keys)
    {
      ghost var g, busy, arches := index.Graph(), Busy(index.arches, index.graph.root), index.arches;
      order := InAnyOrder(del);
      ghost var count, r;
      panicked, count, r := RemoveInOrder(order, busy);
      MinusOnlyLoses(g, r);
      DeletionIsOk(alive, arches, table.views, index.graph.root, g, dead, dirty, busy, del, order, count, r, panicked);
    }

    ghost function Now(): World
      reads this, index, table
    {
      World(alive, index.arches, table.views)
    }

    /** A flush that goes ahead. */
    method FlushNow() returns (outcome: FlushOutcome, order: seq<Ptr>)
      requires Valid()
      modifies this`alive, this`dirty, this`dead, this`flushCount, index, index.graph, index.graph.arena, table.Repr
      ensures outcome != ConcurrentFlush && ValidFor(alive, if outcome == Panicked then Elems(order) else {})
      ensures FlushDid(old(Now()), old(index.Graph()), index.graph.root, Now(), order, outcome == Panicked)
      ensures OnlyLost(old(index.Graph()), index.Graph()) && table.Repr == old(table.Repr)
      ensures dirty == [] && dead == [] && flushCount == old(flushCount) + 1
    {
      ghost var w0 := Now();
      var del := ReconcileAll(w0);
      var panicked;
      panicked, order := DeleteUnused(del);
      outcome := if panicked then Panicked else Flushed;
    }

    /** `flush_archetypes`. It refuses to run while a query holds the guard. */
    method Flush() returns (outcome: FlushOutcome, order: seq<Ptr>)
      requires Valid()
      modifies this`alive, this`dirty, this`dead, this`flushCount, index, index.graph, index.graph.arena, table.Repr
      ensures (outcome == ConcurrentFlush <==> queryGuards > 0) && table.Repr == old(table.Repr)
      ensures outcome == ConcurrentFlush ==>
        && Valid() && Now() == old(Now()) && index.Graph() == old(index.Graph())
        && dirty == old(dirty) && dead == old(dead) && flushCount == old(flushCount)
      ensures outcome != ConcurrentFlush ==>
        && ValidFor(alive, if outcome == Panicked then Elems(order) else {})
        && FlushDid(old(Now()), old(index.Graph()), index.graph.root, Now(), order, outcome == Panicked)
        && OnlyLost(old(index.Graph()), index.Graph())
        && dirty == [] && dead == [] && flushCount == old(flushCount) + 1
    {
      order := [];
      if queryGuards > 0 {
        return ConcurrentFlush, order;
      }
      outcome, order := FlushNow();
    }

    // === Entities and tags === //

    /** `spawn_entity`, given the identifier it draws, which is assumed to be unused. */
    method Spawn(me: Entity)
      requires Valid() && me !in alive && forall d :: d in dead ==> d.entity != me
      modifies this`alive
      ensures Valid() && alive == old(alive)[me := Info(comps.root, index.graph.root, index.graph.root, 0, 0)]
    {
      var info := Info(comps.root, index.graph.root, index.graph.root, 0, 0);
      comps.RootIsEmpty();
      SpawnedIsOk(alive, index.arches, table.views, index.graph.root, dirty, dead, comps.arena.live, me, info);
      alive := alive[me := info];
    }

    /** The archetype index on its own: nothing else is touched. */
    method RemoveIfUnused(a: Ptr, ghost busy: set<Ptr>) returns (ghost gone: set<Ptr>)
      requires Sound() && a in index.arches && busy == Busy(index.arches, index.graph.root)
      requires index.graph.root in index.arches
      modifies index, index.graph, index.graph.arena
      ensures Sound()
      ensures index.arches == old(index.arches) - gone && index.Graph() == Minus(old(index.Graph()), gone)
      ensures Tried(old(index.Graph()), busy, a, gone)
    {
      gone := index.RemoveIfUnused(a, busy);
    }

    /** Removes an archetype that may have become unused. */
    method Sweep(a: Ptr, ghost place: Alive)
      requires ValidFor(place, {a}) && a in index.arches
      requires forall f :: f in place ==> place[f].phys in Busy(index.arches, index.graph.root)
      modifies index, index.graph, index.graph.arena
      ensures ValidFor(place, {}) && TagsStay(old(index.arches), index.arches)
      ensures index.arches.Keys <= old(index.arches).Keys
      ensures old(Stays(index.Graph(), Busy(index.arches, index.graph.root), a)) ==> index.Graph() == old(index.Graph())
    {
      ghost var g, busy, arches := index.Graph(), Busy(index.arches, index.graph.root), index.arches;
      ghost var gone := RemoveIfUnused(a, busy);
      TriedLeavesNoIdle(g, busy, a, gone);
      MinusNothing(g);
      DeletedIsOk(alive, arches, table.views, place, index.graph.root, dirty, dead, gone);
    }

    /** `despawn_entity_without_comp_cleanup`: the entity is dead at once, but storages, and its cell, still
        have it. */
    method Despawn(e: Entity) returns (list: Option<Ptr>)
      requires Valid()
      modifies this`alive, this`dead, index, index.graph, index.graph.arena
      ensures list == if e in old(alive) then Some(old(alive)[e].compList) else None
      ensures ValidFor(old(alive), {})
      ensures alive == old(alive) - {e} && OthersWantTheSame(old(alive), old(index.arches), alive, index.arches, e)
      ensures dead == if e in old(alive) then Buried(old(dead), e, old(alive)[e], index.graph.root) else old(dead)
      ensures old(dead) <= dead
      ensures e in old(alive) && old(alive)[e].phys == old(alive)[e].virt ==> index.Graph() == old(index.Graph())
    {
      if e !in alive {
        assert alive - {e} == alive;
        TagsStayPut(alive, index.arches, alive, index.arches, index.graph.root, Elems(dead), e);
        return None;
      }
      var info := alive[e];
      Die(e);
      return Some(info.compList);
    }

    method Die(e: Entity)
      requires Valid() && e in alive
      modifies this`alive, this`dead, index, index.graph, index.graph.arena
      ensures ValidFor(old(alive), {})
      ensures alive == old(alive) - {e} && OthersWantTheSame(old(alive), old(index.arches), alive, index.arches, e)
      ensures dead == Buried(old(dead), e, old(alive)[e], index.graph.root)
      ensures old(alive)[e].phys == old(alive)[e].virt ==> index.Graph() == old(index.Graph())
    {
      var info := alive[e];
      ghost var place, arches := alive, index.arches;
      Bury(e);
      Sweep(info.virt, place);
      TagsStayPut(place, arches, alive, index.arches, index.graph.root, Elems(dead), e);
    }

    method Bury(e: Entity)
      requires Valid() && e in alive
      modifies this`alive, this`dead, index`arches
      ensures alive == old(alive) - {e} && dead == Buried(old(dead), e, old(alive)[e], index.graph.root)
      ensures old(alive)[e].virt in index.arches && ValidFor(old(alive), {old(alive)[e].virt})
      ensures forall f :: f in old(alive) ==> old(alive)[f].phys in Busy(index.arches, index.graph.root)
      ensures TagsStay(old(index.arches), index.arches) && index.Graph() == old(index.Graph())
    {
      BuriedIsOk(alive, index.arches, table.views, index.graph.root, index.Graph(), dirty, dead, comps.arena.live, e);
      StrikeOut(e);
    }

    /** The entity's record is dropped, and its cell, if it has one, goes on the dead list. */
    method StrikeOut(e: Entity)
      requires Sound() && e in alive && alive[e].virt in index.arches
      modifies this`alive, this`dead, index`arches
      ensures Sound() && alive == old(alive) - {e} && dead == Buried(old(dead), e, old(alive)[e], index.graph.root)
      ensures index.arches == Counted(old(index.arches), index.graph.root, old(alive)[e].virt, -1)
      ensures index.Graph() == old(index.Graph())
    {
      var info := alive[e];
      alive := alive - {e};
      if info.phys != index.graph.root {
        dead := dead + [Dead(e, info.phys, info.heapIndex, info.slotIndex)];
      }
      index.Count(info.virt, -1);
    }

    /** `is_entity_tagged_virtual` and `is_entity_tagged_physical`. */
    method IsTagged(e: Entity, tag: Tag, physical: bool) returns (tagged: Option<bool>)
      requires Valid()
      ensures tagged.Some? <==> e in alive
      ensures tagged.Some? ==>
        && alive[e].virt in index.arches && alive[e].phys in index.arches
        && (tagged.value <==> tag in index.arches[if physical then alive[e].phys else alive[e].virt].tags)
    {
      if e !in alive {
        return None;
      }
      assert LiveOk(alive, index.arches, index.graph.root, e);
      var has := index.HasTag(if physical then alive[e].phys else alive[e].virt, tag);
      return Some(has);
    }

    /** `tag_common`: changes the tags an entity wants. Its layout follows at the next flush. */
    method TagCommon(e: Entity, tag: Tag, add: bool) returns (ok: bool)
      requires Valid()
      modifies this`alive, this`dirty, index, index.graph, index.graph.arena
      ensures Valid() && (ok <==> e in old(alive))
      ensures !ok ==> alive == old(alive) && dirty == old(dirty) && index.arches == old(index.arches)
      ensures ok ==>
        && e in alive && alive == old(alive)[e := old(alive)[e].(virt := alive[e].virt)]
        && (forall tags :: Wants(old(alive), old(index.arches), e, tags) ==>
              Wants(alive, index.arches, e, Target(tags, tag, add)))
        && (forall tags :: Wants(old(alive), old(index.arches), e, tags) && add && tag !in tags ==>
              IsSteppingStone(index.Graph(), old(alive)[e].virt))
      ensures OthersWantTheSame(old(alive), old(index.arches), alive, index.arches, e)
      ensures dirty == old(dirty) || dirty == old(dirty) + [e]
    {
      if e !in alive {
        TagsStayPut(alive, index.arches, alive, index.arches, index.graph.root, Elems(dead), e);
        return false;
      }
      TagLive(e, tag, add);
      return true;
    }

    method TagLive(e: Entity, tag: Tag, add: bool)
      requires Valid() && e in alive
      modifies this`alive, this`dirty, index, index.graph, index.graph.arena
      ensures Valid()
      ensures e in alive && alive == old(alive)[e := old(alive)[e].(virt := alive[e].virt)]
      ensures forall tags :: Wants(old(alive), old(index.arches), e, tags) ==>
        Wants(alive, index.arches, e, Target(tags, tag, add))
      ensures OthersWantTheSame(old(alive), old(index.arches), alive, index.arches, e)
      ensures dirty == old(dirty) || dirty == old(dirty) + [e]
      ensures forall tags :: Wants(old(alive), old(index.arches), e, tags) && add && tag !in tags ==>
        IsSteppingStone(index.Graph(), old(alive)[e].virt)
    {
      ghost var before, arches := alive, index.arches;
      Retag(e, tag, add);
      TagsStayPut(before, arches, alive, index.arches, index.graph.root, Elems(dead), e);
    }

    method Retag(e: Entity, tag: Tag, add: bool)
      requires Valid() && e in alive
      modifies this`alive, this`dirty, index, index.graph, index.graph.arena
      ensures Valid() && e in alive && alive == old(alive)[e := old(alive)[e].(virt := alive[e].virt)]
      ensures old(alive)[e].virt in old(index.arches) && alive[e].virt in index.arches
      ensures Elems(index.arches[alive[e].virt].tags)
        == Target(Elems(old(index.arches)[old(alive)[e].virt].tags), tag, add)
      ensures TagsStay(old(index.arches), index.arches)
      ensures dirty == old(dirty) || dirty == old(dirty) + [e]
      ensures add && tag !in old(index.arches)[old(alive)[e].virt].tags ==>
        IsSteppingStone(index.Graph(), old(alive)[e].virt)
    {
      var was := alive[e].virt;
      RelinkEntity(e, tag, add);
      Sweep(was, alive);
      MirroredVirt(alive, index.arches, index.graph.root, Elems(dead));
    }

    method RelinkEntity(e: Entity, tag: Tag, add: bool)
      requires Valid() && e in alive
      modifies this`alive, this`dirty, index, index.graph, index.graph.arena
      ensures e in alive && alive == old(alive)[e := old(alive)[e].(virt := alive[e].virt)]
      ensures ValidFor(alive, {old(alive)[e].virt}) && old(index.arches).Keys <= index.arches.Keys
      ensures old(alive)[e].virt in old(index.arches)
      ensures forall f :: f in alive ==> alive[f].phys in Busy(index.arches, index.graph.root)
      ensures TagsStay(old(index.arches), index.arches) && alive[e].virt in index.arches
      ensures Elems(index.arches[alive[e].virt].tags)
        == Target(Elems(old(index.arches)[old(alive)[e].virt].tags), tag, add)
      ensures dirty == old(dirty) || dirty == old(dirty) + [e]
      ensures add && tag !in old(index.arches)[old(alive)[e].virt].tags ==>
        IsSteppingStone(index.Graph(), old(alive)[e].virt)
    {
      ghost var place, arches, g, list := alive, index.arches, index.Graph(), dirty;
      MirroredVirt(alive, index.arches, index.graph.root, Elems(dead));
      var target, fresh_ := Relink(e, tag, add);
      RetaggedAllOk(place, arches, table.views, index.graph.root, g, index.Graph(), list, dead, comps.arena.live, e,
                    target, fresh_, add, dirty);
    }

    method Retarget(base: Ptr, tag: Tag, add: bool) returns (target: Ptr, ghost fresh_: Arch)
      requires Sound() && base in index.arches
      modifies index, index.graph, index.graph.arena
      ensures Sound() && index.arches == Retagged(old(index.arches), index.graph.root, base, target, fresh_)
      ensures HasNoHeaps(fresh_) && fresh_.virtualCount == 0
      ensures Elems(index.arches[target].tags) == Target(Elems(old(index.arches)[base].tags), tag, add)
      ensures index.Graph().Keys == old(index.Graph()).Keys + {target}
      ensures OnwardAfterLink(old(index.Graph()), index.Graph(), base, target, add)
    {
      target, fresh_ := index.Retarget(base, tag, add);
    }

    /** Looks up the new archetype, adjusts both counts and queues the entity if it became dirty. */
    method Relink(e: Entity, tag: Tag, add: bool) returns (target: Ptr, ghost fresh_: Arch)
      requires Sound() && e in alive && alive[e].virt in index.arches
      modifies this`alive, this`dirty, index, index.graph, index.graph.arena
      ensures Sound() && alive == old(alive)[e := old(alive)[e].(virt := target)]
      ensures HasNoHeaps(fresh_) && fresh_.virtualCount == 0
      ensures index.arches == Retagged(old(index.arches), index.graph.root, old(alive)[e].virt, target, fresh_)
      ensures Elems(index.arches[target].tags) == Target(Elems(old(index.arches)[old(alive)[e].virt].tags), tag, add)
      ensures index.Graph().Keys == old(index.Graph()).Keys + {target}
      ensures OnwardAfterLink(old(index.Graph()), index.Graph(), old(alive)[e].virt, target, add)
      ensures dirty ==
        if old(alive)[e].phys != target && old(alive)[e].phys == old(alive)[e].virt then old(dirty) + [e]
        else old(dirty)
    {
      target, fresh_ := Retarget(alive[e].virt, tag, add);
      SetVirtual(e, target);
    }

    method SetVirtual(e: Entity, target: Ptr)
      requires Sound() && e in alive
      modifies this`alive, this`dirty
      ensures Sound() && alive == old(alive)[e := old(alive)[e].(virt := target)]
      ensures dirty ==
        if old(alive)[e].phys != target && old(alive)[e].phys == old(alive)[e].virt then old(dirty) + [e]
        else old(dirty)
    {
      var wasDirty := alive[e].phys != alive[e].virt;
      alive := alive[e := alive[e].(virt := target)];
      var isDirty := alive[e].phys != alive[e].virt;
      if isDirty && !wasDirty {
        dirty := dirty + [e];
      }
    }

    // === What queries need === //

    /** `borrow_query_guard`. */
    method BeginQuery()
      requires Valid()
      modifies this`queryGuards
      ensures Valid() && queryGuards == old(queryGuards) + 1
    {
      queryGuards := queryGuards + 1;
    }

    method EndQuery()
      requires Valid() && queryGuards > 0
      modifies this`queryGuards
      ensures Valid() && queryGuards == old(queryGuards) - 1
    {
      queryGuards := queryGuards - 1;
    }

    method Intersect(list: seq<Tag>) returns (result: seq<Ptr>)
      requires Valid()
      modifies index`tags
      ensures Valid() && Ascending(result)
      ensures forall a :: a in result <==> list != [] && HasAll(index.arches, list, a)
    {
      result := index.Intersect(list);
    }

    // === Components === //

    /** `get_storage`: creates the storage of a type on first use. */
    method GetStorage(t: CompType)
      requires Sound()
      modifies table
      ensures Sound() && fresh(table.Repr - old(table.Repr)) && old(table.Repr) <= table.Repr && t in table.stores
      ensures t in table.views
      ensures t in old(table.views) ==> table.views == old(table.views)
      ensures t !in old(table.views) ==>
        && table.views == old(table.views)[t := table.views[t]]
        && table.views[t].mappings == map[] && table.views[t].heaps == map[]
        && forall place, managed :: Settled(table.views[t], t, place, managed)
    {
      var _ := table.GetStorage(t);
    }

    /** Makes sure that there is a storage; nobody can tell. */
    method OpenStorage(t: CompType, ghost place: Alive)
      requires ValidFor(place, {})
      modifies table
      ensures ValidFor(place, {}) && t in table.stores && t in table.views
      ensures fresh(table.Repr - old(table.Repr)) && old(table.Repr) <= table.Repr
      ensures old(table.views).Keys <= table.views.Keys
      ensures SameForAll(old(table.views), table.views)
    {
      ghost var views := table.views;
      GetStorage(t);
      if t !in views {
        NewStorageIsOk(alive, views, table.views, place, index.arches, comps.arena.live, t);
      }
    }

    /** Finds the component list with one type more, or one less. */
    method Relist(list: Ptr, t: CompType, add: bool) returns (target: Ptr)
      requires Sound() && list in comps.arena.live
      modifies comps, comps.arena
      ensures Sound() && ListsGrew(old(comps.arena.live), comps.arena.live) && target in comps.arena.live
      ensures Elems(comps.arena.live[target].keys) == Target(Elems(old(comps.arena.live)[list].keys), t, add)
    {
      var created;
      target, created := comps.LookupCommon(list, t, add);
    }

    method StoreInsert(t: CompType, e: Entity, value: Value) returns (replaced: Option<Value>, handle: SlotId)
      requires Sound() && t in table.stores && Insertable(table.views, alive, index.arches, t, e)
      modifies table.Repr
      ensures Sound() && t in table.views && table.views == old(table.views)[t := table.views[t]]
      ensures Stored(old(table.views)[t], table.views[t], alive, index.arches, t, e, value, replaced, handle)
    {
      replaced, handle := PutInto(t, e, value, alive[e], index.arches[alive[e].phys], alive, ManagedOf(index.arches));
    }

    method PutInto(t: CompType, e: Entity, value: Value, info: Info, arch: Arch, ghost place: Alive,
                   ghost managed: Managed)
      returns (replaced: Option<Value>, handle: SlotId)
      requires Sound() && t in table.stores && t in table.views && Settled(table.views[t], t, place, managed)
      requires MayHold(place, managed, e, info, arch, t)
      modifies table.Repr
      ensures Sound() && t in table.views && table.views == old(table.views)[t := table.views[t]]
      ensures Storages.Inserted(old(table.views)[t], table.views[t], t, place, managed, e, value, replaced, handle)
    {
      replaced, handle := table.InsertInto(t, e, value, info, arch, place, managed);
    }

    method StoreRemove(t: CompType, e: Entity, ghost place: Alive, ghost managed: Managed)
      returns (removed: Option<Value>)
      requires Sound() && t in table.stores && t in table.views && Settled(table.views[t], t, place, managed)
      modifies table.Repr
      ensures Sound() && t in table.views && table.views == old(table.views)[t := table.views[t]]
      ensures table.Repr == old(table.Repr)
      ensures Storages.Removed(old(table.views)[t], table.views[t], t, place, managed, e, removed)
    {
      removed := table.RemoveFrom(t, e, place, managed);
    }

    /** `get_component`. */
    method GetComponent(t: CompType, e: Entity) returns (handle: Option<SlotId>)
      requires Valid()
      ensures handle == HandleOf(table.views, t, e)
    {
      handle := table.GetComponent(t, e);
    }

    /** `insert_component`: the component list grows with a new component, and the value is written to the
        slot the entity's layout prescribes; an existing component is overwritten in place. */
    method InsertComponent(t: CompType, e: Entity, value: Value) returns (outcome: InsertOutcome)
      requires Valid()
      modifies this`alive, comps, comps.arena, table, table.Repr
      ensures Valid()
      ensures outcome.CannotInsert? <==> e !in old(alive)
      ensures outcome.CannotInsert? ==> SameForAll(old(table.views), table.views) && alive == old(alive)
      ensures outcome.Inserted? ==>
        && e in alive && alive == old(alive)[e := old(alive)[e].(compList := alive[e].compList)]
        && OnlyChanged(old(table.views), table.views, t, e)
        && ComponentOf(table.views, t, e) == Some(value) && HandleOf(table.views, t, e) == Some(outcome.handle)
        && outcome.replaced == ComponentOf(old(table.views), t, e)
    {
      OpenStorage(t, alive);
      if e !in alive {
        return CannotInsert;
      }
      var replaced, handle := InsertLive(t, e, value);
      return Inserted(replaced, handle);
    }

    method InsertLive(t: CompType, e: Entity, value: Value) returns (replaced: Option<Value>, handle: SlotId)
      requires Valid() && e in alive && t in table.stores && t in table.views
      modifies this`alive, comps, comps.arena, table.Repr
      ensures Valid() && e in alive && alive == old(alive)[e := old(alive)[e].(compList := alive[e].compList)]
      ensures OnlyChanged(old(table.views), table.views, t, e)
      ensures ComponentOf(table.views, t, e) == Some(value) && HandleOf(table.views, t, e) == Some(handle)
      ensures replaced == ComponentOf(old(table.views), t, e)
    {
      ghost var place, views, lists := alive, table.views, comps.arena.live;
      index.Built();
      ExtendList(t, e);
      ExtendedIsInsertable(place, alive, views, index.arches, index.graph.root, dirty, dead, lists, comps.arena.live, t,
                           e);
      replaced, handle := StoreInsert(t, e, value);
      InsertionIsOk(place, alive, index.arches, index.graph.root, dirty, dead, views, table.views[t], lists,
                    comps.arena.live, t, e, value, replaced, handle);
    }

    /** A new component extends its entity's list. */
    method ExtendList(t: CompType, e: Entity)
      requires Sound() && e in alive && ListsOk(alive, table.views, comps.arena.live)
      modifies this`alive, comps, comps.arena
      ensures Sound() && ListExtended(old(alive), alive, old(comps.arena.live), comps.arena.live, t, e)
    {
      assert ListOkFor(alive[e], e, table.views, comps.arena.live);
      var handle := table.GetComponent(t, e);
      if handle.None? {
        var list := Relist(alive[e].compList, t, true);
        alive := alive[e := alive[e].(compList := list)];
      } else {
        assert Holds(table.views, t, e);
        assert alive == alive[e := alive[e].(compList := alive[e].compList)];
      }
    }

    /** `remove_component`. Liveness only matters if there is nothing to remove. */
    method RemoveComponent(t: CompType, e: Entity) returns (outcome: RemoveOutcome)
      requires Valid()
      modifies this`alive, comps, comps.arena, table, table.Repr
      ensures Valid()
      ensures outcome.CannotRemove? <==> e !in old(alive)
      ensures TakenOut(old(table.views), table.views, t, e, if outcome.Removed? then outcome.value else None)
      ensures ListReduced(old(alive), alive, old(comps.arena.live), comps.arena.live, t, e)
    {
      ghost var place := alive;
      HeldIsPlaced(table.views, alive, index.arches, t, e);
      outcome := RemoveAt(t, e, alive);
      RemovedIsValid(place, e);
    }

    lemma RemovedIsValid(place: Alive, e: Entity)
      requires ValidFor(place, {})
      requires e in place ==> e in alive && alive == place[e := place[e].(compList := alive[e].compList)]
      requires e !in place ==> alive == place
      ensures Valid()
    {
      AlikeKeepsStores(table.views, place, alive, index.arches, index.arches);
    }

    /** The same for an entity that may be dying, and is at `place` as far as storages are concerned. */
    method RemoveAt(t: CompType, e: Entity, ghost place: Alive) returns (outcome: RemoveOutcome)
      requires ValidFor(place, {})
      modifies this`alive, comps, comps.arena, table, table.Repr
      ensures ValidFor(place, {}) && fresh(table.Repr - old(table.Repr))
      ensures ListReduced(old(alive), alive, old(comps.arena.live), comps.arena.live, t, e)
      ensures outcome.Removed? ==> TakenOut(old(table.views), table.views, t, e, outcome.value)
      ensures outcome.CannotRemove? ==> e !in old(alive) && TakenOut(old(table.views), table.views, t, e, None)
      ensures outcome == Removed(None) ==> e in old(alive)
    {
      ghost var views := table.views;
      OpenStorage(t, place);
      ghost var mid := table.views;
      var removed := TakeOut(t, e, place);
      outcome := if removed.Some? || e in alive then Removed(removed) else CannotRemove;
    }

    method TakeOut(t: CompType, e: Entity, ghost place: Alive) returns (removed: Option<Value>)
      requires ValidFor(place, {}) && t in table.stores && t in table.views
      modifies this`alive, comps, comps.arena, table.Repr
      ensures table.Repr == old(table.Repr)
      ensures ValidFor(place, {})
      ensures ListReduced(old(alive), alive, old(comps.arena.live), comps.arena.live, t, e)
      ensures TakenOut(old(table.views), table.views, t, e, removed)
    {
      ghost var before, views, lists := alive, table.views, comps.arena.live;
      ListsTell(alive, views, lists, t, e);
      removed := Unlink(t, e, place, ManagedOf(index.arches));
      RemovalIsOk(before, alive, place, index.arches, index.graph.root, dirty, dead, views, table.views[t], lists,
                  comps.arena.live, t, e, removed);
    }

    method Unlink(t: CompType, e: Entity, ghost place: Alive, ghost managed: Managed) returns (removed: Option<Value>)
      requires Sound() && t in table.stores && t in table.views
      requires Settled(table.views[t], t, place, managed)
      requires ListTells(alive, table.views, comps.arena.live, t, e)
      modifies this`alive, comps, comps.arena, table.Repr
      ensures table.Repr == old(table.Repr)
      ensures Sound() && t in table.views && table.views == old(table.views)[t := table.views[t]]
      ensures ListReduced(old(alive), alive, old(comps.arena.live), comps.arena.live, t, e)
      ensures Storages.Removed(old(table.views)[t], table.views[t], t, place, managed, e, removed)
    {
      removed := StoreRemove(t, e, place, managed);
      ReduceList(t, e, removed.Some?);
    }

    /** A removed component shortens the list of its entity, if that is alive. */
    method ReduceList(t: CompType, e: Entity, removed: bool)
      requires Sound()
      requires e in alive ==>
        alive[e].compList in comps.arena.live && (removed <==> t in comps.arena.live[alive[e].compList].keys)
      modifies this`alive, comps, comps.arena
      ensures Sound() && ListReduced(old(alive), alive, old(comps.arena.live), comps.arena.live, t, e)
    {
      if e in alive {
        if removed {
          var list := Relist(alive[e].compList, t, false);
          alive := alive[e := alive[e].(compList := list)];
        } else {
          assert t !in Elems(comps.arena.live[alive[e].compList].keys);
          assert alive == alive[e := alive[e].(compList := alive[e].compList)];
        }
      }
    }

    /** `Entity::destroy`: despawns an entity and runs the destructor of each of its components. It panics
        (here: reports failure) if the entity is dead already. */
    method Destroy(e: Entity) returns (ok: bool, dropped: map<CompType, Value>, order: seq<CompType>)
      requires Valid()
      modifies this`alive, this`dead, index, index.graph, index.graph.arena, comps, comps.arena, table, table.Repr
      ensures Valid() && (ok <==> e in old(alive)) && alive == old(alive) - {e}
      ensures OthersWantTheSame(old(alive), old(index.arches), alive, index.arches, e)
      ensures AllTornDown(old(table.views), table.views, e, dropped)
      ensures if ok then InListOrder(order, old(alive)[e].compList, old(comps.arena.live)) else order == []
      ensures dead == if ok then Buried(old(dead), e, old(alive)[e], index.graph.root) else old(dead)
      ensures ok && old(alive)[e].phys == old(alive)[e].virt ==> index.Graph() == old(index.Graph())
      ensures fresh(table.Repr - old(table.Repr))
    {
      ghost var place := alive;
      var list := Despawn(e);
      if list.None? {
        assert place - {e} == place;
        NothingToTearDown(e);
        return false, map[], [];
      }
      dropped, order := RunDestructors(list.value, e, place);
      return true, dropped, order;
    }

    lemma NothingToTearDown(e: Entity)
      requires Valid() && e !in alive
      ensures AllTornDown(table.views, table.views, e, map[])
    {
      forall t ensures !Holds(table.views, t, e) { HeldIsPlaced(table.views, alive, index.arches, t, e); }
    }

    /** `run_dtors`: one destructor for each key of the component list, which removes that component. */
    method RunDestructors(list: Ptr, e: Entity, ghost place: Alive)
      returns (dropped: map<CompType, Value>, order: seq<CompType>)
      requires ValidFor(place, {}) && e in place && alive == place - {e} && list == place[e].compList
      requires ListsOk(place, table.views, comps.arena.live)
      modifies this`alive, comps, comps.arena, table, table.Repr
      ensures Valid() && alive == old(alive) && AllTornDown(old(table.views), table.views, e, dropped)
      ensures InListOrder(order, list, old(comps.arena.live))
      ensures fresh(table.Repr - old(table.Repr))
    {
      ghost var before := table.views;
      comps.GraphIsOk();
      TearDownStart(place, before, comps.arena.live, e);
      var keys := comps.arena.Get(list).keys;
      dropped, order := RunEach(keys, e, place);
      TornDownIsValid(place, before, keys, e, dropped);
    }

    method RunEach(keys: seq<CompType>, e: Entity, ghost place: Alive)
      returns (dropped: map<CompType, Value>, order: seq<CompType>)
      requires ValidFor(place, {}) && alive == place - {e} && TornDown(table.views, table.views, keys, 0, e, map[])
      modifies this`alive, comps, comps.arena, table, table.Repr
      ensures ValidFor(place, {}) && alive == place - {e} && fresh(table.Repr - old(table.Repr))
      ensures TornDown(old(table.views), table.views, keys, |keys|, e, dropped) && order == keys
    {
      ghost var before := table.views;
      dropped, order := map[], [];
      var i := 0;
      while i < |keys|
        invariant ValidFor(place, {}) && alive == place - {e}
        invariant TornDown(before, table.views, keys, i, e, dropped) && order == keys[..i]
        invariant fresh(table.Repr - old(table.Repr))
      {
        assert keys[..i + 1] == keys[..i] + [keys[i]];
        order := order + [keys[i]];
        var value := RunDestructor(keys[i], e, place, before, keys, i, dropped);
        dropped := dropped[keys[i] := value];
        i := i + 1;
      }
    }

    lemma TornDownIsValid(place: Alive, before: Views, keys: seq<CompType>, e: Entity, dropped: map<CompType, Value>)
      requires ValidFor(place, {}) && alive == place - {e} && TornDown(before, table.views, keys, |keys|, e, dropped)
      requires forall t :: Holds(before, t, e) <==> t in keys
      ensures Valid() && AllTornDown(before, table.views, e, dropped)
    {
      ForgottenKeepsStores(table.views, place, e, index.arches);
    }

    method RunDestructor(t: CompType, e: Entity, ghost place: Alive, ghost before: Views, ghost keys: seq<CompType>,
                         ghost i: int, ghost dropped: map<CompType, Value>)
      returns (value: Value)
      requires ValidFor(place, {}) && alive == place - {e}
      requires TornDown(before, table.views, keys, i, e, dropped) && i < |keys| && keys[i] == t
      modifies this`alive, comps, comps.arena, table, table.Repr
      ensures ValidFor(place, {}) && alive == old(alive) && fresh(table.Repr - old(table.Repr))
      ensures TornDown(before, table.views, keys, i + 1, e, dropped[t := value])
    {
      ghost var mid := table.views;
      assert t in keys[i..] by { assert keys[i..][0] == t; }
      assert Holds(mid, t, e);
      HeldReads(mid, place, index.arches, t, e);
      var outcome := RemoveAt(t, e, place);
      // The source asserts that the removal succeeds; there is a value as well.
      value := outcome.value.value;
      TearDownMore(before, mid, table.views, keys, i, e, dropped, value);
    }
  }

  /** `DbRoot::default`. */
  method NewDatabase(hash: seq<Key> -> int, types: TagTypes) returns (db: DbRoot)
    ensures fresh(db) && db.Valid()
    ensures db.alive == map[] && db.dead == [] && db.table.views == map[] && db.flushCount == 0 && db.queryGuards == 0
  {
    var index := new ArchetypeIndex(hash, types);
    var comps := new SetMap(hash);
    var table := new StorageTable();
    db := new DbRoot(index, comps, table);
    db.EmptyIsValid();
  }
}
