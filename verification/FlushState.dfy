/** What every step of a flush keeps (`src/database.rs`, `flush_archetypes`), on the values alone. */
module FlushState {
  import opened Iters
  import opened Sorting
  import opened Arena
  import opened KeyGraph
  import opened SetMaps
  import opened Collector
  import opened Heaps
  import opened Archetypes
  import opened Layout
  import opened StorageViews
  import opened Storages
  import opened StorageTables
  import opened DbState

  /** Everything a flush changes before it deletes archetypes. */
  datatype World = World(alive: Alive, arches: Arches, views: Views)

  /** Entities only change where they are laid out. */
  ghost predicate SameEntities(before: Alive, after: Alive) {
    && before.Keys == after.Keys
    && forall e {:trigger after[e]} :: e in before ==>
         after[e].virt == before[e].virt && after[e].compList == before[e].compList
  }

  ghost predicate SamePhys(before: Alive, after: Alive) {
    before.Keys == after.Keys && forall e {:trigger after[e]} :: e in before ==> after[e].phys == before[e].phys
  }

  lemma SameButHeapsKeepsBuild(before: Arches, after: Arches, root: Ptr)
    requires WellBuilt(before, root) && SameButHeaps(before, after)
    ensures WellBuilt(after, root)
  {
    forall a | a in after ensures WellBuiltArch(after[a]) {
      assert WellBuiltArch(before[a]);
    }
  }

  /** Every archetype an entity wants knows that some entity does. */
  ghost predicate Wanted(alive: Alive, arches: Arches, root: Ptr) {
    forall e :: e in alive && alive[e].virt != root ==>
      alive[e].virt in arches && arches[alive[e].virt].virtualCount > 0
  }

  /** Exactly one entity changed archetypes, to the one it wanted. */
  ghost predicate MovedToVirtual(before: Alive, after: Alive, e: Entity) {
    && before.Keys == after.Keys
    && forall f {:trigger after[f]} :: f in before ==>
         after[f].virt == before[f].virt && after[f].phys == if f == e then before[f].virt else before[f].phys
  }

  ghost predicate Used(arch: Arch) {
    arch.heaps != [] || arch.virtualCount > 0
  }

  /** Whatever lost its last entity is in the deletion set, and nothing else is but what had entities at
      some point of the flush. */
  ghost predicate Emptied(before: Arches, after: Arches, root: Ptr, del: set<Ptr>) {
    && (forall a :: a in del ==> a in before && a != root && Used(before[a]))
    && (forall a {:trigger after[a]} :: a in after && a in before ==>
          && (after[a].heaps != [] ==> Used(before[a]))
          && (after[a].heaps == [] && before[a].heaps != [] ==> a in del))
  }

  /** Archetypes only change their heaps, and only those due for truncation have fewer than a storage. */
  ghost predicate Reshaping(before: Arches, after: Arches, views: Views, root: Ptr, trunc: set<Ptr>, del: set<Ptr>) {
    && SameButHeaps(before, after) && Emptied(before, after, root, del)
    && trunc <= after.Keys - {root} && Trimmed(views, after, trunc)
  }

  ghost predicate Underway(w0: World, alive: Alive, arches: Arches, views: Views, root: Ptr, trunc: set<Ptr>,
                           del: set<Ptr>)
  {
    && SameEntities(w0.alive, alive)
    && Reshaping(w0.arches, arches, views, root, trunc, del)
    && AllSettled(views, alive, ManagedOf(arches))
    && AllSame(w0.views, views)
  }

  lemma SameManaged(before: Arches, after: Arches)
    requires SameButHeaps(before, after)
    ensures ManagedOf(before) == ManagedOf(after)
  {
    forall a | a in before ensures ManagedOf(before)[a] == ManagedOf(after)[a] {
      assert after[a].managed == before[a].managed;
    }
  }

  /** One archetype got other heaps; if they are fewer it is due for truncation, and if there are none
      left it is due for deletion. */
  lemma ReshapedOne(before: Arches, after: Arches, views: Views, root: Ptr, trunc: set<Ptr>, del: set<Ptr>,
                    a: Ptr, b: Arch, trunc': set<Ptr>, del': set<Ptr>)
    requires Reshaping(before, after, views, root, trunc, del) && a in after && a != root
    requires b == after[a].(heaps := b.heaps, lastHeapLen := b.lastHeapLen)
    requires trunc <= trunc' <= trunc + {a} && del <= del' <= del + {a}
    requires |b.heaps| < |after[a].heaps| ==> a in trunc'
    requires b.heaps == [] && after[a].heaps != [] ==> a in del'
    requires Used(before[a])
    ensures Reshaping(before, after[a := b], views, root, trunc', del')
  {
    var arches := after[a := b];
    forall t | t in views ensures TrimmedIn(views[t], arches, trunc') {
      assert TrimmedIn(views[t], after, trunc);
    }
  }

  lemma AllSameTrans(u: Views, v: Views, w: Views)
    requires AllSame(u, v) && AllSame(v, w)
    ensures AllSame(u, w)
  {
    forall t | t in u ensures SameComponents(u[t], w[t]) {
    }
  }

  /** After the components of an entity were carried to its new place `info`. */
  lemma CarriedKeepsTrim(views: Views, views': Views, place: Alive, arches: Arches, root: Ptr, trunc: set<Ptr>,
                         info: Info)
    requires Trimmed(views, arches, trunc) && AllSame(views, views')
    requires AllGrownTo(views, views', info.phys, info.heapIndex + 1)
    requires AllSettled(views', place, ManagedOf(arches))
    requires info.phys in arches
    requires arches[info.phys].managed != {} ==> info.heapIndex < |arches[info.phys].heaps|
    ensures Trimmed(views', arches, trunc)
  {
    forall t | t in views' ensures TrimmedIn(views'[t], arches, trunc) {
      assert TrimmedIn(views[t], arches, trunc);
      if info.phys in views'[t].heaps { ListedIsManaged(views'[t], t, place, ManagedOf(arches), info.phys); }
    }
  }

  // === Each move goes where nobody is === //

  /** A live last entity may fill the cell of a dead one. */
  lemma CanFillDead(alive: Alive, arches: Arches, root: Ptr, pending: set<Dead>, d: Dead, last: Entity)
    requires Mirrored(alive, arches, root, pending) && d in pending && d.phys in arches
    requires At(arches[d.phys], d.Place()) != None
    requires At(arches[d.phys], LastPos(arches[d.phys])) == Some(last) && last in alive
    ensures d.Place() != LastPos(arches[d.phys]) && Occupied(arches[d.phys], d.Place())
    ensures HasCell(arches[d.phys], d.Place())
    ensures HasCell(WithCell(arches[d.phys], d.Place(), last), LastPos(arches[d.phys]))
    ensures alive[last].phys == d.phys
    ensures CanMove(alive, ManagedOf(arches), last, alive[last].MovedTo(d.phys, d.Place()), d.phys,
                    Filled(arches[d.phys], d.Place(), last))
    ensures d.slotIndex >= 0 && d.heapIndex < |Filled(arches[d.phys], d.Place(), last).heaps|
  {
    var a, here := d.phys, d.Place();
    FillDeadKeepsMirror(alive, arches, root, pending, d, last);
    FilledOutcome(arches[a], here, last);
    assert DeadOk(alive, arches, root, d);
    assert LiveOk(alive, arches, root, last);
    forall f | f in alive && alive[f].phys == a ensures alive[f].Place() != here {
      assert LiveOk(alive, arches, root, f);
    }
    assert At(Filled(arches[a], here, last), here) == Some(last);
  }

  /** An entity may enter the next position of another archetype. */
  lemma CanEnter(alive: Alive, arches: Arches, root: Ptr, e: Entity, dst: Ptr)
    requires Mirrored(alive, arches, root, {}) && e in alive && dst in arches && alive[e].phys != dst
    requires arches[root].managed == {}
    ensures alive[e].phys in arches
    ensures dst == root ==> CanMove(alive, ManagedOf(arches), e, alive[e].(phys := root), alive[e].phys, arches[root])
    ensures dst != root ==>
      CanMove(alive, ManagedOf(arches), e, alive[e].MovedTo(dst, NextPos(arches[dst])), alive[e].phys,
        Pushed(arches[dst], e))
  {
    assert LiveOk(alive, arches, root, e);
    if dst != root {
      PushedOutcome(arches[dst], e);
      var next := NextPos(arches[dst]);
      assert At(Pushed(arches[dst], e), next) == Some(e);
      forall f | f in alive && alive[f].phys == dst ensures alive[f].Place() != next {
        assert LiveOk(alive, arches, root, f);
      }
    }
  }

  /** The last entity may fill the hole another one left. */
  lemma CanFillHole(alive: Alive, arches: Arches, root: Ptr, hole: Ptr, here: Pos)
    requires hole in arches && hole != root && MirroredButHole(alive, arches, root, hole, here)
    requires here != LastPos(arches[hole]) && |arches[hole].heaps| > 0
    ensures Occupied(arches[hole], here) && HasCell(arches[hole], here)
    ensures At(arches[hole], LastPos(arches[hole])).Some? && At(arches[hole], LastPos(arches[hole])).value in alive
    ensures var last := At(arches[hole], LastPos(arches[hole])).value;
      CanMove(alive, ManagedOf(arches), last, alive[last].MovedTo(hole, here), hole, WithCell(arches[hole], here, last))
  {
    FillHoleKeepsMirror(alive, arches, root, hole, here);
    var last := At(arches[hole], LastPos(arches[hole])).value;
    WithCellOutcome(arches[hole], here, last);
    assert At(WithCell(arches[hole], here, last), here) == Some(last);
    forall f | f in alive && alive[f].phys == hole ensures alive[f].Place() != here {
      assert LivesAt(alive, f, hole, here) || alive[f].Place() != here;
    }
  }

  lemma RestWithoutHead<T>(list: seq<T>, i: int)
    requires NoRepeats(list) && 0 <= i < |list|
    ensures list[i] in Elems(list[i..]) && Elems(list[i + 1..]) == Elems(list[i..]) - {list[i]}
  {
    assert list[i..][0] == list[i];
    assert list[i..] == [list[i]] + list[i + 1..];
    forall x | x in Elems(list[i + 1..]) ensures x in list[i..] && x != list[i] {
      var k :| 0 <= k < |list[i + 1..]| && list[i + 1..][k] == x;
      assert list[i..][k + 1] == x && list[i + 1 + k] == x;
    }
    forall x | x in list[i..] && x != list[i] ensures x in list[i + 1..] {
      var k :| 0 <= k < |list[i..]| && list[i..][k] == x;
      assert list[i + 1..][k - 1] == x;
    }
  }

  // === The two halves of a move === //

  /** Where an entity's record goes when it enters the archetype it wants. */
  ghost function EnteredInfo(alive: Alive, arches: Arches, root: Ptr, e: Entity): Info
    requires e in alive && alive[e].virt in arches
  {
    var dst := alive[e].virt;
    if dst == root then alive[e].(phys := root) else alive[e].MovedTo(dst, NextPos(arches[dst]))
  }

  ghost function EnteredArches(alive: Alive, arches: Arches, root: Ptr, e: Entity): Arches
    requires e in alive && alive[e].virt in arches && ArchOk(arches[alive[e].virt])
  {
    var dst := alive[e].virt;
    if dst == root then arches else arches[dst := Pushed(arches[dst], e)]
  }

  /** The entity can be laid out where it wants to be. */
  ghost predicate MayEnter(alive: Alive, arches: Arches, root: Ptr, e: Entity) {
    && e in alive && alive[e].virt in arches && alive[e].phys in arches && ArchOk(arches[alive[e].virt])
    && CanMove(alive, ManagedOf(arches), e, EnteredInfo(alive, arches, root, e), alive[e].phys,
               EnteredArches(alive, arches, root, e)[alive[e].virt])
  }

  lemma MirroredMayEnter(alive: Alive, arches: Arches, root: Ptr, e: Entity)
    requires Mirrored(alive, arches, root, {}) && WellBuilt(arches, root)
    requires e in alive && alive[e].phys != alive[e].virt
    ensures MayEnter(alive, arches, root, e)
    ensures MirroredButHole(alive[e := EnteredInfo(alive, arches, root, e)], EnteredArches(alive, arches, root, e),
                            root, alive[e].phys, alive[e].Place())
  {
    assert LiveOk(alive, arches, root, e);
    CanEnter(alive, arches, root, e, alive[e].virt);
    EnterKeepsMirror(alive, arches, root, e, alive[e].virt);
  }

  /** The hole can be closed: it is the last cell, or the last entity may move into it. */
  ghost predicate MayBackfill(alive: Alive, arches: Arches, root: Ptr, hole: Ptr, here: Pos) {
    && hole in arches && hole != root && ArchOk(arches[hole]) && Occupied(arches[hole], here)
    && (here != LastPos(arches[hole]) ==>
          var last := At(arches[hole], LastPos(arches[hole]));
          && last.Some? && last.value in alive && alive[last.value].phys == hole
          && CanMove(alive, ManagedOf(arches), last.value, alive[last.value].MovedTo(hole, here), hole,
                     WithCell(arches[hole], here, last.value)))
  }

  /** The hole was closed. */
  ghost predicate Backfilled(alive: Alive, arches: Arches, alive': Alive, arches': Arches, hole: Ptr, here: Pos) {
    && hole in arches && ArchOk(arches[hole]) && Occupied(arches[hole], here)
    && HasCell(arches[hole], LastPos(arches[hole]))
    && if here == LastPos(arches[hole]) then
         alive' == alive && arches' == arches[hole := Popped(arches[hole])]
       else
         var last := At(arches[hole], LastPos(arches[hole]));
         && last.Some? && last.value in alive
         && HasCell(WithCell(arches[hole], here, last.value), LastPos(arches[hole]))
         && alive' == alive[last.value := alive[last.value].MovedTo(hole, here)]
         && arches' == arches[hole := Filled(arches[hole], here, last.value)]
  }

  /** Filling the hole and dropping the last cell closes the hole. */
  lemma BackfilledByFilling(alive: Alive, arches: Arches, root: Ptr, hole: Ptr, here: Pos)
    requires MayBackfill(alive, arches, root, hole, here) && here != LastPos(arches[hole])
    ensures var last := At(arches[hole], LastPos(arches[hole])).value;
            var filled := WithCell(arches[hole], here, last);
            && ArchOk(filled) && |filled.heaps| > 0 && HasCell(filled, LastPos(filled))
            && Backfilled(alive, arches, alive[last := alive[last].MovedTo(hole, here)],
                          arches[hole := filled][hole := Popped(filled)], hole, here)
  {
    var last := At(arches[hole], LastPos(arches[hole])).value;
    var filled := WithCell(arches[hole], here, last);
    WithCellOutcome(arches[hole], here, last);
    LastIsOccupied(arches[hole]);
    assert arches[hole := filled][hole := Popped(filled)] == arches[hole := Popped(filled)];
  }

  lemma HoleMayBackfill(alive: Alive, arches: Arches, root: Ptr, hole: Ptr, here: Pos)
    requires hole in arches && hole != root && MirroredButHole(alive, arches, root, hole, here)
    ensures MayBackfill(alive, arches, root, hole, here)
  {
    if here != LastPos(arches[hole]) {
      FillHoleKeepsMirror(alive, arches, root, hole, here);
      CanFillHole(alive, arches, root, hole, here);
    }
  }

  lemma BackfilledKeepsMirror(alive: Alive, arches: Arches, alive': Alive, arches': Arches, root: Ptr, hole: Ptr,
                              here: Pos)
    requires hole in arches && hole != root && MirroredButHole(alive, arches, root, hole, here)
    requires Backfilled(alive, arches, alive', arches', hole, here)
    ensures Mirrored(alive', arches', root, {}) && SamePhys(alive, alive')
  {
    if here == LastPos(arches[hole]) {
      PopHoleKeepsMirror(alive, arches, root, hole);
    } else {
      FillHoleKeepsMirror(alive, arches, root, hole, here);
    }
  }

  // === The dirty list === //

  /** The dirty list never misses a live entity whose archetypes differ. */
  ghost predicate DirtyListed(alive: Alive, dirty: seq<Entity>) {
    forall e :: e in alive && alive[e].phys != alive[e].virt ==> e in dirty
  }

  lemma TargetIsDone(before: Alive, after: Alive, target: Entity, rest: seq<Entity>)
    requires DirtyListed(before, [target] + rest)
    requires MovedToVirtual(before, after, target)
             || (after == before && (target in before ==> before[target].phys == before[target].virt))
    ensures DirtyListed(after, rest)
  {
    forall e | e in after && after[e].phys != after[e].virt ensures e in rest {
      assert e in [target] + rest;
    }
  }

  ghost predicate Clean(alive: Alive) {
    forall e :: e in alive ==> alive[e].phys == alive[e].virt
  }

  // === Truncation === //

  /** Live entities are within the heaps their archetype has left. */
  lemma EntitiesAreWithin(alive: Alive, arches: Arches, root: Ptr, a: Ptr)
    requires Mirrored(alive, arches, root, {}) && a in arches && a != root
    ensures forall e :: e in alive && alive[e].phys == a ==> alive[e].heapIndex < |arches[a].heaps|
  {
    forall e | e in alive && alive[e].phys == a ensures alive[e].heapIndex < |arches[a].heaps| {
      assert LiveOk(alive, arches, root, e);
    }
  }

  lemma TruncatedIsTrimmed(v: StView, v': StView, t: CompType, alive: Alive, arches: Arches, trunc: set<Ptr>, a: Ptr)
    requires a in arches && Truncated(v, v', t, alive, ManagedOf(arches), a, |arches[a].heaps|)
    requires TrimmedIn(v, arches, trunc)
    ensures TrimmedIn(v', arches, trunc - {a})
  {
    forall b | b in v'.heaps && b != a ensures b in v.heaps && v'.heaps[b] == v.heaps[b] {
      assert b in v'.heaps - {a};
    }
  }

  lemma TruncatedOne(w0: World, alive: Alive, arches: Arches, views: Views, views': Views, root: Ptr,
                     trunc: set<Ptr>, del: set<Ptr>, a: Ptr)
    requires Underway(w0, alive, arches, views, root, trunc, del) && a in trunc && a in arches
    requires AllTruncated(views, views', alive, ManagedOf(arches), a, |arches[a].heaps|)
    ensures Underway(w0, alive, arches, views', root, trunc - {a}, del)
  {
    forall t | t in views' ensures TrimmedIn(views'[t], arches, trunc - {a}) {
      assert TrimmedIn(views[t], arches, trunc);
      TruncatedIsTrimmed(views[t], views'[t], t, alive, arches, trunc, a);
    }
    AllSameTrans(w0.views, views, views');
  }

  // === What is left of archetypes === //

  /** The archetypes nobody wants that still hold entities: exactly these lose their last entity for good. */
  ghost function Doomed(arches: Arches, root: Ptr): set<Ptr> {
    set a | a in arches && a != root && arches[a].heaps != [] && arches[a].virtualCount == 0
  }

  /** The root and the archetypes somebody wants. */
  ghost function InDemand(arches: Arches, root: Ptr): set<Ptr> {
    set a | a in arches && (a == root || arches[a].virtualCount > 0)
  }

  /** Once clean, an archetype holds entities exactly when somebody wants it. */
  lemma CleanHeaps(alive: Alive, arches: Arches, root: Ptr, a: Ptr)
    requires Mirrored(alive, arches, root, {}) && CountsOk(alive, arches, root) && Clean(alive)
    requires a in arches && a != root
    ensures arches[a].virtualCount == |Members(alive, a)|
    ensures arches[a].heaps != [] <==> arches[a].virtualCount > 0
  {
    assert CountOk(alive, arches, a);
    if arches[a].heaps != [] {
      LastIsOccupied(arches[a]);
      assert CellOk(alive, arches, {}, a, LastPos(arches[a]));
      var e := At(arches[a], LastPos(arches[a])).value;
      assert e in Members(alive, a);
    }
    forall e | e in Members(alive, a) ensures arches[a].heaps != [] {
      assert LiveOk(alive, arches, root, e);
    }
    if Members(alive, a) != {} {
      var e := SomeElement(Members(alive, a));
    }
  }

  lemma CountsDoNotMove(before: Alive, after: Alive, arches: Arches, arches': Arches, root: Ptr)
    requires CountsOk(before, arches, root) && SameEntities(before, after) && SameButHeaps(arches, arches')
    ensures CountsOk(after, arches', root)
  {
    forall a | a in arches' && a != root ensures CountOk(after, arches', a) {
      assert CountOk(before, arches, a);
      forall e ensures e in Members(before, a) <==> e in Members(after, a) {
        if e in before { assert after[e].virt == before[e].virt; }
      }
      assert Members(before, a) == Members(after, a);
    }
  }

  lemma BusyWhenClean(w0: World, alive: Alive, arches: Arches, root: Ptr, del: set<Ptr>)
    requires Mirrored(alive, arches, root, {}) && CountsOk(alive, arches, root) && Clean(alive)
    requires SameButHeaps(w0.arches, arches) && Emptied(w0.arches, arches, root, del)
    ensures Busy(arches, root) == InDemand(w0.arches, root)
    ensures del - Busy(arches, root) == Doomed(w0.arches, root)
  {
    forall a | a in arches
      ensures a in Busy(arches, root) <==> a in InDemand(w0.arches, root)
      ensures a in del && a !in Busy(arches, root) <==> a in Doomed(w0.arches, root)
    {
      assert arches[a].virtualCount == w0.arches[a].virtualCount;
      if a != root { CleanHeaps(alive, arches, root, a); }
    }
    assert forall a :: a in del ==> a in arches;
    assert forall a :: a in Doomed(w0.arches, root) ==> a in arches;
  }

  // === The invariant between operations === //

  /** Records, layouts, counts and the two lists of entities to look at agree. */
  ghost predicate RecordsOk(alive: Alive, arches: Arches, root: Ptr, dirty: seq<Entity>, dead: seq<Dead>) {
    && Mirrored(alive, arches, root, Elems(dead)) && NonePopped(arches, Elems(dead)) && NoRepeats(dead)
    && CountsOk(alive, arches, root) && DirtyListed(alive, dirty)
  }

  ghost predicate StoresOk(views: Views, place: Alive, arches: Arches) {
    AllSettled(views, place, ManagedOf(arches)) && Trimmed(views, arches, {})
  }

  ghost predicate Holds(views: Views, t: CompType, e: Entity) {
    t in views && e in views[t].mappings
  }

  ghost predicate ListOkFor(info: Info, e: Entity, views: Views, lists: map<Ptr, Entry>) {
    info.compList in lists && forall t {:trigger Holds(views, t, e)} :: t in lists[info.compList].keys <==>
      Holds(views, t, e)
  }

  /** A live entity's component list is exactly the set of types whose storage has a component of it. */
  ghost predicate ListsOk(alive: Alive, views: Views, lists: map<Ptr, Entry>) {
    forall e {:trigger ListOkFor(alive[e], e, views, lists)} :: e in alive ==> ListOkFor(alive[e], e, views, lists)
  }

  lemma RecordsAreWanted(alive: Alive, arches: Arches, root: Ptr)
    requires CountsOk(alive, arches, root)
    requires forall e :: e in alive ==> alive[e].virt in arches
    ensures Wanted(alive, arches, root)
  {
    forall e | e in alive && alive[e].virt != root ensures arches[alive[e].virt].virtualCount > 0 {
      MemberCounts(alive, arches, root, e);
    }
  }

  lemma MirroredVirt(alive: Alive, arches: Arches, root: Ptr, pending: set<Dead>)
    requires Mirrored(alive, arches, root, pending)
    ensures forall e :: e in alive ==> alive[e].virt in arches && alive[e].phys in Busy(arches, root)
  {
    forall e | e in alive ensures alive[e].virt in arches && alive[e].phys in Busy(arches, root) {
      assert LiveOk(alive, arches, root, e);
    }
  }

  lemma ReadyToReconcile(w: World, dirty: seq<Entity>, dead: seq<Dead>, root: Ptr)
    requires RecordsOk(w.alive, w.arches, root, dirty, dead) && WellBuilt(w.arches, root)
    requires StoresOk(w.views, w.alive, w.arches)
    ensures Wanted(w.alive, w.arches, root)
    ensures Underway(w, w.alive, w.arches, w.views, root, {}, {})
  {
    MirroredVirt(w.alive, w.arches, root, Elems(dead));
    RecordsAreWanted(w.alive, w.arches, root);
  }

  /** No storage has anything for the archetypes that go. */
  lemma FreedArchesKeepStores(views: Views, place: Alive, arches: Arches, root: Ptr, r: set<Ptr>)
    requires StoresOk(views, place, arches) && r !! Busy(arches, root)
    requires forall e :: e in place ==> place[e].phys in Busy(arches, root)
    ensures StoresOk(views, place, arches - r)
  {
    forall t | t in views
      ensures Settled(views[t], t, place, ManagedOf(arches - r)) && TrimmedIn(views[t], arches - r, {})
    {
      assert Settled(views[t], t, place, ManagedOf(arches)) && TrimmedIn(views[t], arches, {});
      forall a | a in views[t].heaps ensures a !in r {
        assert arches[a].heaps != [];
      }
      ElsewhereKeepsInv(views[t], t, place, ManagedOf(arches), place, ManagedOf(arches - r));
    }
  }

  /** Component lists do not notice a flush. */
  lemma SameComponentsKeepLists(alive: Alive, alive': Alive, views: Views, views': Views, lists: map<Ptr, Entry>)
    requires ListsOk(alive, views, lists) && SameEntities(alive, alive') && AllSame(views, views')
    ensures ListsOk(alive', views', lists)
  {
    forall e | e in alive' ensures ListOkFor(alive'[e], e, views', lists) {
      assert ListOkFor(alive[e], e, views, lists) && alive'[e].compList == alive[e].compList;
      forall t ensures Holds(views', t, e) <==> Holds(views, t, e) {
        if t in views { assert SameComponents(views[t], views'[t]); }
      }
    }
  }

  /** After the reconciliation, all that is left to do is to delete unused archetypes. */
  lemma ReconciledIsOk(w0: World, alive: Alive, arches: Arches, views: Views, root: Ptr, g: Graph, dirty: seq<Entity>,
                       dead: seq<Dead>, del: set<Ptr>, lists: map<Ptr, Entry>)
    requires RecordsOk(w0.alive, w0.arches, root, dirty, dead) && NoIdleBut(g, Busy(w0.arches, root), {})
    requires ListsOk(w0.alive, w0.views, lists) && g.Keys == w0.arches.Keys
    requires Underway(w0, alive, arches, views, root, {}, del) && Mirrored(alive, arches, root, {}) && Clean(alive)
    ensures RecordsOk(alive, arches, root, [], []) && NoIdleBut(g, Busy(arches, root), del)
    ensures StoresOk(views, alive, arches) && ListsOk(alive, views, lists)
    ensures Busy(arches, root) == InDemand(w0.arches, root) && del - Busy(arches, root) == Doomed(w0.arches, root)
    ensures del <= arches.Keys
  {
    assert Elems<Dead>([]) == {};
    CountsDoNotMove(w0.alive, alive, w0.arches, arches, root);
    SameComponentsKeepLists(w0.alive, alive, w0.views, views, lists);
    BusyWhenClean(w0, alive, arches, root, del);
    assert forall a :: a in del ==> a in arches;
  }

  /** Deleting unused archetypes changes nothing for anybody. */
  lemma DeletedIsOk(alive: Alive, arches: Arches, views: Views, place: Alive, root: Ptr, dirty: seq<Entity>,
                    dead: seq<Dead>, r: set<Ptr>)
    requires RecordsOk(alive, arches, root, dirty, dead) && StoresOk(views, place, arches)
    requires r !! Busy(arches, root)
    requires forall e :: e in place ==> place[e].phys in Busy(arches, root)
    ensures RecordsOk(alive, arches - r, root, dirty, dead) && StoresOk(views, place, arches - r)
    ensures Busy(arches - r, root) == Busy(arches, root)
  {
    FreedArchesKeepMirror(alive, arches, root, Elems(dead), r);
    FreedArchesKeepStores(views, place, arches, root, r);
  }

  /** Archetypes may have been deleted; the others differ in their layout only. */
  ghost predicate KeptArches(before: Arches, after: Arches) {
    && after.Keys <= before.Keys
    && forall a {:trigger after[a]} :: a in after ==>
         && after[a].tags == before[a].tags && after[a].virtualCount == before[a].virtualCount
         && after[a].managed == before[a].managed && after[a].managedSorted == before[a].managedSorted
  }

  /** The deletion loop handled the first `count` archetypes of the order, and `r` went. */
  lemma DeletionIsOk(alive: Alive, arches: Arches, views: Views, root: Ptr, g: Graph, dead: seq<Dead>,
                     dirty: seq<Entity>, busy: set<Ptr>, del: set<Ptr>, order: seq<Ptr>, count: int, r: set<Ptr>,
                     panicked: bool)
    requires RecordsOk(alive, arches, root, dirty, dead) && StoresOk(views, alive, arches) && NoIdleBut(g, busy, del)
    requires busy == Busy(arches, root) && g.Keys == arches.Keys && IsOrderOf(order, del)
    requires Deleting(g, root, busy, order, count, r)
    requires panicked ==> count < |order| && order[count] in r
    requires !panicked ==> count == |order|
    ensures RecordsOk(alive, arches - r, root, dirty, dead) && StoresOk(views, alive, arches - r)
    ensures NoIdleBut(Minus(g, r), Busy(arches - r, root), if panicked then del else {})
    ensures KeptArches(arches, arches - r) && (panicked <==> Panics(g, root, busy, order))
    ensures !panicked ==> Leaves(g, root, busy, del - busy, (arches - r).Keys)
  {
    DeletingDecides(g, root, busy, order, count, r, panicked);
    CollectionIsIdle(g, busy, Elems(order[..count]), r);
    CollectionLeavesNoIdle(g, busy, del, Elems(order[..count]), r);
    if !panicked { CollectionLeaves(g, root, busy, del, r, (arches - r).Keys); }
    MirroredVirt(alive, arches, root, Elems(dead));
    DeletedIsOk(alive, arches, views, alive, root, dirty, dead, r);
  }

  /** What a flush promises: every entity is laid out as it wants to be, and nobody who holds components
      can tell. It panics exactly if its deletion loop meets an archetype that is gone already; the loop
      visits the doomed archetypes in the order of a hash set (besides some that are in use). Otherwise it
      deletes exactly the doomed archetypes nothing else needs, and the stepping stones to them. */
  ghost predicate FlushDid(w0: World, g: Graph, root: Ptr, w: World, order: seq<Ptr>, panicked: bool) {
    && SameEntities(w0.alive, w.alive) && Clean(w.alive)
    && AllSame(w0.views, w.views)
    && KeptArches(w0.arches, w.arches)
    && GraphInv(g, root) && Elems(order) <= g.Keys && NoRepeats(order)
    && Elems(order) - InDemand(w0.arches, root) == Doomed(w0.arches, root)
    && (panicked <==> Panics(g, root, InDemand(w0.arches, root), order))
    && (!panicked ==> Leaves(g, root, InDemand(w0.arches, root), Doomed(w0.arches, root), w.arches.Keys))
  }

}
