/** What the single operations on entities keep (`src/database.rs`), on the values alone. */
module DbSteps {
  import opened Iters
  import opened Sorting
  import opened Arena
  import opened KeyGraph
  import opened SetMaps
  import opened Collector
  import opened Heaps
  import opened Archetypes
  import opened Layout
  import opened StorageViews
  import opened Storages
  import opened StorageTables
  import opened DbState
  import opened ArchetypeIndexes
  import opened FlushState

  // === What storages look at === //

  /** Every entity is still placed as it was. */
  ghost predicate PlacedAlike(before: Alive, after: Alive) {
    forall e {:trigger after[e]} {:trigger before[e]} :: e in before ==>
      e in after && after[e].phys == before[e].phys && after[e].Place() == before[e].Place()
  }

  /** Every archetype is still there, managing the same types with as many heaps. */
  ghost predicate BuiltAlike(before: Arches, after: Arches) {
    forall a {:trigger after[a]} {:trigger before[a]} :: a in before ==>
      a in after && after[a].managed == before[a].managed && after[a].heaps == before[a].heaps
  }

  lemma AlikeKeepsStores(views: Views, place: Alive, place': Alive, arches: Arches, arches': Arches)
    requires StoresOk(views, place, arches) && PlacedAlike(place, place') && BuiltAlike(arches, arches')
    ensures StoresOk(views, place', arches')
  {
    forall t | t in views
      ensures Settled(views[t], t, place', ManagedOf(arches')) && TrimmedIn(views[t], arches', {})
    {
      assert Settled(views[t], t, place, ManagedOf(arches)) && TrimmedIn(views[t], arches, {});
      forall e | e in views[t].mappings && e in place
        ensures e in place' && place'[e].phys == place[e].phys && place'[e].Place() == place[e].Place()
        ensures place[e].phys in arches ==>
          place[e].phys in arches' && arches'[place[e].phys].managed == arches[place[e].phys].managed
      {
      }
      ElsewhereKeepsInv(views[t], t, place, ManagedOf(arches), place', ManagedOf(arches'));
    }
  }

  /** An entity no storage knows may be forgotten. */
  lemma ForgottenKeepsStores(views: Views, place: Alive, e: Entity, arches: Arches)
    requires StoresOk(views, place, arches) && forall t :: !Holds(views, t, e)
    ensures StoresOk(views, place - {e}, arches)
  {
    forall t | t in views ensures Settled(views[t], t, place - {e}, ManagedOf(arches)) {
      assert Settled(views[t], t, place, ManagedOf(arches)) && !Holds(views, t, e);
      ElsewhereKeepsInv(views[t], t, place, ManagedOf(arches), place - {e}, ManagedOf(arches));
    }
  }

  lemma HeldIsPlaced(views: Views, place: Alive, arches: Arches, t: CompType, e: Entity)
    requires StoresOk(views, place, arches)
    ensures Holds(views, t, e) ==> e in place
  {
    if Holds(views, t, e) {
      assert Settled(views[t], t, place, ManagedOf(arches)) && MappingOk(views[t], t, place, ManagedOf(arches), e);
    }
  }

  lemma DeadAreDead(alive: Alive, arches: Arches, root: Ptr, pending: set<Dead>, d: Dead)
    requires Mirrored(alive, arches, root, pending)
    ensures d in pending ==> d.entity !in alive
  {
    if d in pending { assert DeadOk(alive, arches, root, d); }
  }

  // === Spawning === //

  lemma SpawnedIsOk(alive: Alive, arches: Arches, views: Views, root: Ptr, dirty: seq<Entity>, dead: seq<Dead>,
                    lists: map<Ptr, Entry>, e: Entity, info: Info)
    requires RecordsOk(alive, arches, root, dirty, dead) && StoresOk(views, alive, arches)
    requires ListsOk(alive, views, lists)
    requires e !in alive && forall d :: d in dead ==> d.entity != e
    requires info.virt == root && info.phys == root && info.compList in lists && lists[info.compList].keys == []
    ensures RecordsOk(alive[e := info], arches, root, dirty, dead)
    ensures StoresOk(views, alive[e := info], arches) && ListsOk(alive[e := info], views, lists)
  {
    var alive' := alive[e := info];
    forall f | f in alive' ensures LiveOk(alive', arches, root, f) {
      if f != e { assert LiveOk(alive, arches, root, f); }
    }
    forall a, p | a in arches
      ensures CellOk(alive', arches, Elems(dead), a, p)
    {
      assert CellOk(alive, arches, Elems(dead), a, p);
    }
    forall d | d in Elems(dead) ensures DeadOk(alive', arches, root, d) { assert DeadOk(alive, arches, root, d); }
    forall a | a in arches && a != root ensures CountOk(alive', arches, a) {
      assert CountOk(alive, arches, a);
      assert Members(alive', a) == Members(alive, a);
    }
    AlikeKeepsStores(views, alive, alive', arches, arches);
    forall f | f in alive' ensures ListOkFor(alive'[f], f, views, lists) {
      if f != e {
        assert ListOkFor(alive[f], f, views, lists);
      } else {
        forall t ensures !Holds(views, t, e) { HeldIsPlaced(views, alive, arches, t, e); }
      }
    }
  }

  // === Dying === //

  /** The dead list after an entity died. */
  function Buried(dead: seq<Dead>, e: Entity, info: Info, root: Ptr): seq<Dead> {
    if info.phys == root then dead else dead + [Dead(e, info.phys, info.heapIndex, info.slotIndex)]
  }

  lemma DiedIsOk(alive: Alive, arches: Arches, root: Ptr, dirty: seq<Entity>, dead: seq<Dead>, e: Entity)
    requires RecordsOk(alive, arches, root, dirty, dead) && e in alive
    ensures alive[e].virt in arches
    ensures RecordsOk(alive - {e}, Counted(arches, root, alive[e].virt, -1), root, dirty,
      Buried(dead, e, alive[e], root))
  {
    var info, pending := alive[e], Elems(dead);
    var d := Dead(e, info.phys, info.heapIndex, info.slotIndex);
    assert LiveOk(alive, arches, root, e);
    DeathKeepsMirror(alive, arches, root, pending, e);
    ElemsSnoc(dead, d);
    DeadAreDead(alive, arches, root, pending, d);
    var dead' := Buried(dead, e, info, root);
    var after := Counted(arches, root, info.virt, -1);
    assert NoRepeats(dead');
    CountsAfterDeath(alive, arches, root, e);
    forall f | f in alive - {e} ensures (alive - {e})[f].virt in arches { assert LiveOk(alive, arches, root, f); }
    SameLayoutKeepsMirror(alive - {e}, alive - {e}, arches, after, root, Elems(dead'));
  }

  /** A place where an entity, live or dying, has a cell belongs to a busy archetype. */
  lemma PlacesAreBusy(alive: Alive, arches: Arches, root: Ptr, dirty: seq<Entity>, dead: seq<Dead>, e: Entity,
                      place: Alive)
    requires RecordsOk(alive, arches, root, dirty, dead) && PlacedAlike(place - {e}, alive)
    requires e in place && (place[e].phys == root || (exists d :: d in dead && d.phys == place[e].phys))
    ensures forall f :: f in place ==> place[f].phys in Busy(arches, root)
  {
    MirroredVirt(alive, arches, root, Elems(dead));
    forall f | f in place ensures place[f].phys in Busy(arches, root) {
      if f != e {
        assert (place - {e})[f] == place[f];
        assert f in alive && alive[f].phys == place[f].phys;
      } else if place[e].phys != root {
        var d :| d in dead && d.phys == place[e].phys;
        assert d in Elems(dead);
        assert At(arches[d.phys], d.Place()) != None;
      }
    }
  }

  // === Tagging === //

  /** All that holds once an entity's record is gone, while storages still have it where it was. */
  lemma BuriedIsOk(alive: Alive, arches: Arches, views: Views, root: Ptr, g: Graph, dirty: seq<Entity>, dead: seq<Dead>,
                   lists: map<Ptr, Entry>, e: Entity)
    requires RecordsOk(alive, arches, root, dirty, dead) && e in alive && g.Keys == arches.Keys
    requires NoIdleBut(g, Busy(arches, root), {}) && StoresOk(views, alive, arches) && ListsOk(alive, views, lists)
    ensures alive[e].virt in arches
    ensures var after := Counted(arches, root, alive[e].virt, -1);
      && RecordsOk(alive - {e}, after, root, dirty, Buried(dead, e, alive[e], root))
      && NoIdleBut(g, Busy(after, root), {alive[e].virt})
      && StoresOk(views, alive, after) && ListsOk(alive - {e}, views, lists)
      && (forall f :: f in alive ==> alive[f].phys in Busy(after, root))
      && TagsStay(arches, after)
  {
    DiedIsOk(alive, arches, root, dirty, dead, e);
    var after := Counted(arches, root, alive[e].virt, -1);
    AlikeKeepsStores(views, alive, alive, arches, after);
    forall f | f in alive - {e} ensures ListOkFor((alive - {e})[f], f, views, lists) {
      assert ListOkFor(alive[f], f, views, lists);
    }
    PlacesAreBusy(alive - {e}, after, root, dirty, Buried(dead, e, alive[e], root), e, alive);
  }

  ghost function WithTarget(arches: Arches, target: Ptr, fresh_: Arch): Arches {
    if target in arches then arches else arches[target := fresh_]
  }

  lemma WithTargetIsOk(alive: Alive, arches: Arches, root: Ptr, pending: set<Dead>, target: Ptr, fresh_: Arch)
    requires Mirrored(alive, arches, root, pending) && NonePopped(arches, pending) && CountsOk(alive, arches, root)
    requires HasNoHeaps(fresh_) && fresh_.virtualCount == 0
    ensures var base := WithTarget(arches, target, fresh_);
      Mirrored(alive, base, root, pending) && NonePopped(base, pending) && CountsOk(alive, base, root)
  {
    if target !in arches {
      MirroredVirt(alive, arches, root, pending);
      NewArchKeepsMirror(alive, arches, root, pending, target, fresh_);
      CountsWithNew(alive, arches, root, target, fresh_);
    }
  }

  lemma RetaggedIsOk(alive: Alive, arches: Arches, root: Ptr, dirty: seq<Entity>, dead: seq<Dead>, e: Entity,
                     target: Ptr, fresh_: Arch, dirty': seq<Entity>)
    requires RecordsOk(alive, arches, root, dirty, dead) && e in alive
    requires HasNoHeaps(fresh_) && fresh_.virtualCount == 0
    requires dirty' == if alive[e].phys != target && alive[e].phys == alive[e].virt then dirty + [e] else dirty
    ensures alive[e].virt in arches
    ensures RecordsOk(alive[e := alive[e].(virt := target)], Retagged(arches, root, alive[e].virt, target, fresh_),
      root, dirty', dead)
  {
    MirroredVirt(alive, arches, root, Elems(dead));
    WithTargetIsOk(alive, arches, root, Elems(dead), target, fresh_);
    RetaggedRecords(alive, WithTarget(arches, target, fresh_), root, dirty, dead, e, target, dirty',
                    Retagged(arches, root, alive[e].virt, target, fresh_));
  }

  lemma RetaggedRecords(alive: Alive, base: Arches, root: Ptr, dirty: seq<Entity>, dead: seq<Dead>, e: Entity,
                        target: Ptr, dirty': seq<Entity>, after: Arches)
    requires RecordsOk(alive, base, root, dirty, dead) && e in alive && alive[e].virt in base && target in base
    requires after == Counted(Counted(base, root, alive[e].virt, -1), root, target, 1) && SameLayout(base, after)
    requires dirty' == if alive[e].phys != target && alive[e].phys == alive[e].virt then dirty + [e] else dirty
    ensures RecordsOk(alive[e := alive[e].(virt := target)], after, root, dirty', dead)
  {
    var alive' := alive[e := alive[e].(virt := target)];
    CountsAfterRetag(alive, base, root, e, target);
    MirroredVirt(alive, base, root, Elems(dead));
    SameLayoutKeepsMirror(alive, alive', base, after, root, Elems(dead));
    forall f | f in alive' && alive'[f].phys != alive'[f].virt ensures f in dirty' {
      if f != e || alive[e].phys != alive[e].virt { assert f in dirty; }
    }
  }

  /** Whatever was a stepping stone still is one, and the new target is wanted. */
  lemma RetaggedIsIdle(g: Graph, g': Graph, alive: Alive, arches: Arches, root: Ptr, dirty: seq<Entity>,
                       dead: seq<Dead>, e: Entity, target: Ptr, fresh_: Arch, add: bool)
    requires RecordsOk(alive, arches, root, dirty, dead) && e in alive && alive[e].virt in arches
    requires HasNoHeaps(fresh_) && fresh_.virtualCount == 0
    requires NoIdleBut(g, Busy(arches, root), {}) && g.Keys == arches.Keys
    requires g'.Keys == g.Keys + {target} && OnwardAfterLink(g, g', alive[e].virt, target, add)
    ensures NoIdleBut(g', Busy(Retagged(arches, root, alive[e].virt, target, fresh_), root), {alive[e].virt})
  {
    var after := Retagged(arches, root, alive[e].virt, target, fresh_);
    RetaggedIsOk(alive, arches, root, dirty, dead, e, target, fresh_,
                 if alive[e].phys != target && alive[e].phys == alive[e].virt then dirty + [e] else dirty);
    var alive' := alive[e := alive[e].(virt := target)];
    if target != root { MemberCounts(alive', after, root, e); }
    forall p | p in g' ensures p in Busy(after, root) || HasOnward(g', p) || p in {alive[e].virt} {
      if p != target && p != alive[e].virt {
        assert p in Busy(arches, root) || HasOnward(g, p);
      }
    }
  }

  // === What entities want === //

  ghost predicate Wants(alive: Alive, arches: Arches, e: Entity, tags: set<Tag>) {
    e in alive && alive[e].virt in arches && Elems(arches[alive[e].virt].tags) == tags
  }

  ghost predicate TagsStay(before: Arches, after: Arches) {
    forall a {:trigger after[a]} :: a in before && a in after ==> after[a].tags == before[a].tags
  }

  /** Every other entity that is still alive wants the tags it wanted. */
  ghost predicate OthersWantTheSame(alive: Alive, arches: Arches, alive': Alive, arches': Arches, e: Entity) {
    forall f, tags {:trigger Wants(alive', arches', f, tags)} ::
      f in alive' && f != e && Wants(alive, arches, f, tags) ==> Wants(alive', arches', f, tags)
  }

  lemma TagsStayPut(alive: Alive, arches: Arches, alive': Alive, arches': Arches, root: Ptr, pending: set<Dead>,
                    e: Entity)
    requires Mirrored(alive', arches', root, pending) && TagsStay(arches, arches')
    requires forall f :: f in alive' && f != e ==> f in alive && alive'[f].virt == alive[f].virt
    ensures OthersWantTheSame(alive, arches, alive', arches', e)
  {
    MirroredVirt(alive', arches', root, pending);
    forall f, tags | f in alive' && f != e && Wants(alive, arches, f, tags) ensures Wants(alive', arches', f, tags) {
      assert arches'[alive'[f].virt].tags == arches[alive[f].virt].tags;
    }
  }

  lemma RetaggedAlike(alive: Alive, arches: Arches, root: Ptr, e: Entity, target: Ptr, fresh_: Arch)
    requires e in alive && alive[e].virt in arches && HasNoHeaps(fresh_)
    ensures var alive' := alive[e := alive[e].(virt := target)];
            var after := Retagged(arches, root, alive[e].virt, target, fresh_);
      PlacedAlike(alive, alive') && BuiltAlike(arches, after) && TagsStay(arches, after)
  {
  }

  /** All that holds once an entity wants other tags, before the old archetype is looked at. */
  lemma RetaggedAllOk(alive: Alive, arches: Arches, views: Views, root: Ptr, g: Graph, g': Graph, dirty: seq<Entity>,
                      dead: seq<Dead>, lists: map<Ptr, Entry>, e: Entity, target: Ptr, fresh_: Arch, add: bool,
                      dirty': seq<Entity>)
    requires RecordsOk(alive, arches, root, dirty, dead) && e in alive && alive[e].virt in arches
    requires g.Keys == arches.Keys
    requires NoIdleBut(g, Busy(arches, root), {}) && StoresOk(views, alive, arches) && ListsOk(alive, views, lists)
    requires HasNoHeaps(fresh_) && fresh_.virtualCount == 0
    requires dirty' == if alive[e].phys != target && alive[e].phys == alive[e].virt then dirty + [e] else dirty
    requires g'.Keys == g.Keys + {target} && OnwardAfterLink(g, g', alive[e].virt, target, add)
    ensures var alive' := alive[e := alive[e].(virt := target)];
            var after := Retagged(arches, root, alive[e].virt, target, fresh_);
      && RecordsOk(alive', after, root, dirty', dead)
      && NoIdleBut(g', Busy(after, root), {alive[e].virt})
      && StoresOk(views, alive', after) && ListsOk(alive', views, lists)
      && (forall f :: f in alive' ==> alive'[f].phys in Busy(after, root))
      && TagsStay(arches, after)
  {
    var alive', after := alive[e := alive[e].(virt := target)], Retagged(arches, root, alive[e].virt, target, fresh_);
    RetaggedIsOk(alive, arches, root, dirty, dead, e, target, fresh_, dirty');
    RetaggedIsIdle(g, g', alive, arches, root, dirty, dead, e, target, fresh_, add);
    RetaggedAlike(alive, arches, root, e, target, fresh_);
    AlikeKeepsStores(views, alive, alive', arches, after);
    forall f | f in alive' ensures ListOkFor(alive'[f], f, views, lists) {
      assert ListOkFor(alive[f], f, views, lists);
    }
    MirroredVirt(alive', after, root, Elems(dead));
  }

  // === Components === //

  /** What the component of type `t` of an entity reads as. */
  ghost function ComponentOf(views: Views, t: CompType, e: Entity): Option<Value> {
    if t in views then Component(views[t], e) else None
  }

  /** The handle that was given out for it. */
  ghost function HandleOf(views: Views, t: CompType, e: Entity): Option<SlotId> {
    if Holds(views, t, e) then Some(views[t].mappings[e].handle) else None
  }

  /** No other component changed, nor its handle. */
  ghost predicate OnlyChanged(before: Views, after: Views, t: CompType, e: Entity) {
    forall u, f {:trigger ComponentOf(after, u, f)} {:trigger HandleOf(after, u, f)} :: u != t || f != e ==>
      ComponentOf(after, u, f) == ComponentOf(before, u, f) && HandleOf(after, u, f) == HandleOf(before, u, f)
  }

  /** Nobody who holds or reads components can tell the difference. */
  ghost predicate SameForAll(before: Views, after: Views) {
    forall u, f {:trigger ComponentOf(after, u, f)} {:trigger HandleOf(after, u, f)} ::
      ComponentOf(after, u, f) == ComponentOf(before, u, f) && HandleOf(after, u, f) == HandleOf(before, u, f)
  }

  /** A flush changes no component and no handle. */
  lemma SameForHolders(before: Views, after: Views, place: Alive, arches: Arches)
    requires AllSame(before, after) && AllSettled(before, place, ManagedOf(arches))
    ensures SameForAll(before, after)
  {
    forall t, e
      ensures ComponentOf(after, t, e) == ComponentOf(before, t, e) && HandleOf(after, t, e) == HandleOf(before, t, e)
    {
      if t in before {
        assert SameComponents(before[t], after[t]) && Settled(before[t], t, place, ManagedOf(arches));
        if e in before[t].mappings { assert MappingOk(before[t], t, place, ManagedOf(arches), e); }
      }
    }
  }

  lemma HeldReads(views: Views, place: Alive, arches: Arches, t: CompType, e: Entity)
    requires AllSettled(views, place, ManagedOf(arches))
    ensures Holds(views, t, e) <==> ComponentOf(views, t, e).Some?
    ensures Holds(views, t, e) ==> e in place
  {
    if Holds(views, t, e) {
      assert Settled(views[t], t, place, ManagedOf(arches)) && MappingOk(views[t], t, place, ManagedOf(arches), e);
      assert OwnerOk(views[t], views[t].mappings[e].handle);
    }
  }

  lemma OthersDidNotChange(views: Views, v: StView, place: Alive, arches: Arches, t: CompType, e: Entity)
    requires AllSettled(views, place, ManagedOf(arches)) && t in views
    requires OthersUnchanged(views[t], v, e) && v.mappings.Keys - {e} == views[t].mappings.Keys - {e}
    ensures OnlyChanged(views, views[t := v], t, e)
  {
    var after := views[t := v];
    forall u, f | u != t || f != e
      ensures ComponentOf(after, u, f) == ComponentOf(views, u, f) && HandleOf(after, u, f) == HandleOf(views, u, f)
    {
      if u == t {
        assert f in v.mappings.Keys - {e} <==> f in views[t].mappings.Keys - {e};
        if f in views[t].mappings {
          assert Settled(views[t], t, place, ManagedOf(arches)) && MappingOk(views[t], t, place, ManagedOf(arches), f);
        }
      }
    }
  }

  /** A new storage has nothing. */
  lemma NewStorageIsOk(alive: Alive, views: Views, views': Views, place: Alive, arches: Arches, lists: map<Ptr, Entry>,
                       t: CompType)
    requires StoresOk(views, place, arches) && ListsOk(alive, views, lists)
    requires t !in views && t in views' && views' == views[t := views'[t]]
    requires views'[t].mappings == map[] && views'[t].heaps == map[] && Settled(views'[t], t, place, ManagedOf(arches))
    ensures StoresOk(views', place, arches) && ListsOk(alive, views', lists)
    ensures SameForAll(views, views')
  {
    forall u | u in views' ensures Settled(views'[u], u, place, ManagedOf(arches)) && TrimmedIn(views'[u], arches, {}) {
      if u != t { assert Settled(views[u], u, place, ManagedOf(arches)) && TrimmedIn(views[u], arches, {}); }
    }
    NothingElseHeld(alive, views, views', lists, t);
  }

  lemma NothingElseHeld(alive: Alive, views: Views, views': Views, lists: map<Ptr, Entry>, t: CompType)
    requires ListsOk(alive, views, lists)
    requires t !in views && t in views' && views' == views[t := views'[t]] && views'[t].mappings == map[]
    ensures ListsOk(alive, views', lists) && SameForAll(views, views')
  {
    forall u, e ensures Holds(views', u, e) <==> Holds(views, u, e) {}
    forall e | e in alive ensures ListOkFor(alive[e], e, views', lists) {
      assert ListOkFor(alive[e], e, views, lists);
    }
  }

  /** An entity whose archetype manages the type occupies a position nobody shares. */
  lemma MayInsert(alive: Alive, arches: Arches, root: Ptr, pending: set<Dead>, e: Entity, t: CompType)
    requires Mirrored(alive, arches, root, pending) && WellBuilt(arches, root) && e in alive
    ensures alive[e].phys in arches && ArchOk(arches[alive[e].phys])
    ensures t in arches[alive[e].phys].managed ==>
      Occupied(arches[alive[e].phys], alive[e].Place()) && Alone(alive, e, alive[e])
  {
    assert LiveOk(alive, arches, root, e) && ArchOk(arches[alive[e].phys]);
    if t in arches[alive[e].phys].managed {
      forall f | f in alive && f != e && alive[f].phys == alive[e].phys ensures alive[f].Place() != alive[e].Place() {
        if alive[f].Place() == alive[e].Place() { PlacesAreDistinct(alive, arches, root, pending, e, f); }
      }
    }
  }

  /** All that a storage asks for before an insertion. */
  ghost predicate Insertable(views: Views, place: Alive, arches: Arches, t: CompType, e: Entity) {
    && t in views && Settled(views[t], t, place, ManagedOf(arches))
    && e in place && place[e].phys in arches
    && MayHold(place, ManagedOf(arches), e, place[e], arches[place[e].phys], t)
  }

  /** The entity's list was extended by `t`. */
  ghost predicate ListExtended(alive: Alive, alive': Alive, lists: map<Ptr, Entry>, lists': map<Ptr, Entry>,
                               t: CompType, e: Entity)
  {
    && e in alive && e in alive' && alive' == alive[e := alive[e].(compList := alive'[e].compList)]
    && ListsGrew(lists, lists') && alive[e].compList in lists && alive'[e].compList in lists'
    && Elems(lists'[alive'[e].compList].keys) == Target(Elems(lists[alive[e].compList].keys), t, true)
  }

  /** A storage did an insertion. */
  ghost predicate Stored(v: StView, w: StView, place: Alive, arches: Arches, t: CompType, e: Entity,
                         value: Value, replaced: Option<Value>, handle: SlotId) {
    Inserted(v, w, t, place, ManagedOf(arches), e, value, replaced, handle)
  }

  /** The records before and after the list changed prescribe the same slot. */
  lemma ExtendedIsInsertable(alive: Alive, alive': Alive, views: Views, arches: Arches, root: Ptr, dirty: seq<Entity>,
                             dead: seq<Dead>, lists: map<Ptr, Entry>, lists': map<Ptr, Entry>, t: CompType, e: Entity)
    requires RecordsOk(alive, arches, root, dirty, dead) && StoresOk(views, alive, arches) && WellBuilt(arches, root)
    requires ListExtended(alive, alive', lists, lists', t, e) && t in views
    ensures Insertable(views, alive', arches, t, e)
  {
    RelistedIsOk(alive, arches, root, dirty, dead, e, alive'[e].compList);
    MayInsert(alive', arches, root, Elems(dead), e, t);
    AlikeKeepsStores(views, alive, alive', arches, arches);
  }

  lemma InsertedIsTrimmed(v: StView, w: StView, t: CompType, place: Alive, arches: Arches, e: Entity)
    requires TrimmedIn(v, arches, {}) && Settled(w, t, place, ManagedOf(arches))
    requires e in place && place[e].phys in arches
    requires t in arches[place[e].phys].managed ==> Occupied(arches[place[e].phys], place[e].Place())
    requires GrownIfAtAll(v.heaps, w.heaps, place[e].phys, place[e].heapIndex + 1)
    ensures TrimmedIn(w, arches, {})
  {
    if place[e].phys in w.heaps { ListedIsManaged(w, t, place, ManagedOf(arches), place[e].phys); }
  }

  /** The lists still have the keys they had; one more may exist. */
  ghost predicate ListsGrew(before: map<Ptr, Entry>, after: map<Ptr, Entry>) {
    forall p {:trigger after[p]} {:trigger before[p]} :: p in before ==> p in after && after[p].keys == before[p].keys
  }

  /** The entity's list and its storages change together. */
  lemma ChangedListIsOk(alive: Alive, alive': Alive, views: Views, views': Views, lists: map<Ptr, Entry>,
                        lists': map<Ptr, Entry>, t: CompType, e: Entity)
    requires ListsOk(alive, views, lists) && ListsGrew(lists, lists')
    requires alive'.Keys == alive.Keys && forall f :: f in alive && f != e ==> alive'[f] == alive[f]
    requires forall u, f :: u != t || f != e ==> (Holds(views', u, f) <==> Holds(views, u, f))
    requires e in alive ==>
      && alive[e].compList in lists && alive'[e].compList in lists'
      && Elems(lists'[alive'[e].compList].keys) == Target(Elems(lists[alive[e].compList].keys), t, Holds(views', t, e))
    ensures ListsOk(alive', views', lists')
  {
    forall f | f in alive' ensures ListOkFor(alive'[f], f, views', lists') {
      assert ListOkFor(alive[f], f, views, lists);
      if f == e {
        var keys, keys' := lists[alive[e].compList].keys, lists'[alive'[e].compList].keys;
        forall u ensures u in keys' <==> Holds(views', u, e) {
          assert (u in keys <==> u in Elems(keys)) && (u in keys' <==> u in Elems(keys'));
        }
      }
    }
  }

  /** Only what lists look at changed in the records. */
  lemma RelistedIsOk(alive: Alive, arches: Arches, root: Ptr, dirty: seq<Entity>, dead: seq<Dead>, e: Entity, c: Ptr)
    requires RecordsOk(alive, arches, root, dirty, dead) && e in alive
    ensures RecordsOk(alive[e := alive[e].(compList := c)], arches, root, dirty, dead)
  {
    var alive' := alive[e := alive[e].(compList := c)];
    MirroredVirt(alive, arches, root, Elems(dead));
    SameLayoutKeepsMirror(alive, alive', arches, arches, root, Elems(dead));
    forall a | a in arches && a != root ensures CountOk(alive', arches, a) {
      assert CountOk(alive, arches, a);
      assert Members(alive', a) == Members(alive, a);
    }
  }

  /** An insertion, with the extension of the entity's list that goes with it. */
  lemma InsertionIsOk(alive: Alive, alive': Alive, arches: Arches, root: Ptr, dirty: seq<Entity>, dead: seq<Dead>,
                      views: Views, v: StView, lists: map<Ptr, Entry>, lists': map<Ptr, Entry>, t: CompType, e: Entity,
                      value: Value, replaced: Option<Value>, handle: SlotId)
    requires RecordsOk(alive, arches, root, dirty, dead) && StoresOk(views, alive, arches)
    requires ListsOk(alive, views, lists)
    requires WellBuilt(arches, root) && t in views && ListExtended(alive, alive', lists, lists', t, e)
    requires Stored(views[t], v, alive', arches, t, e, value, replaced, handle)
    ensures var views' := views[t := v];
      && RecordsOk(alive', arches, root, dirty, dead) && StoresOk(views', alive', arches)
      && ListsOk(alive', views', lists')
      && OnlyChanged(views, views', t, e)
      && ComponentOf(views', t, e) == Some(value) && HandleOf(views', t, e) == Some(handle)
      && replaced == ComponentOf(views, t, e)
  {
    var views' := views[t := v];
    RelistedIsOk(alive, arches, root, dirty, dead, e, alive'[e].compList);
    AlikeKeepsStores(views, alive, alive', arches, arches);
    MayInsert(alive', arches, root, Elems(dead), e, t);
    assert TrimmedIn(views[t], arches, {});
    InsertedIsTrimmed(views[t], v, t, alive', arches, e);
    OthersDidNotChange(views, v, alive, arches, t, e);
    forall u, f | u != t || f != e ensures Holds(views', u, f) <==> Holds(views, u, f) {
      assert HandleOf(views', u, f) == HandleOf(views, u, f);
    }
    ChangedListIsOk(alive, alive', views, views', lists, lists', t, e);
  }

  /** The list of a live entity tells whether it has a component. */
  ghost predicate ListTells(alive: Alive, views: Views, lists: map<Ptr, Entry>, t: CompType, e: Entity) {
    e in alive ==> alive[e].compList in lists && (t in lists[alive[e].compList].keys <==> Holds(views, t, e))
  }

  lemma ListsTell(alive: Alive, views: Views, lists: map<Ptr, Entry>, t: CompType, e: Entity)
    requires ListsOk(alive, views, lists)
    ensures ListTells(alive, views, lists, t, e)
  {
    if e in alive { assert ListOkFor(alive[e], e, views, lists); }
  }

  /** The list of the entity, if it is alive, lost `t`. */
  ghost predicate ListReduced(alive: Alive, alive': Alive, lists: map<Ptr, Entry>, lists': map<Ptr, Entry>, t: CompType,
                              e: Entity)
  {
    && ListsGrew(lists, lists')
    && (e !in alive ==> alive' == alive && lists' == lists)
    && (e in alive ==>
          && e in alive' && alive' == alive[e := alive[e].(compList := alive'[e].compList)]
          && alive[e].compList in lists && alive'[e].compList in lists'
          && Elems(lists'[alive'[e].compList].keys) == Target(Elems(lists[alive[e].compList].keys), t, false))
  }

  /** What a removal amounts to, for whoever looks. */
  ghost predicate TakenOut(before: Views, after: Views, t: CompType, e: Entity, removed: Option<Value>) {
    && OnlyChanged(before, after, t, e) && !Holds(after, t, e)
    && removed == ComponentOf(before, t, e) && (removed.Some? <==> Holds(before, t, e))
  }

  /** A removal; if the entity is still alive, the reduction of its list goes with it. */
  lemma RemovalIsOk(alive: Alive, alive': Alive, place: Alive, arches: Arches, root: Ptr, dirty: seq<Entity>,
                    dead: seq<Dead>, views: Views, v: StView, lists: map<Ptr, Entry>, lists': map<Ptr, Entry>,
                    t: CompType, e: Entity, removed: Option<Value>)
    requires RecordsOk(alive, arches, root, dirty, dead) && StoresOk(views, place, arches)
    requires ListsOk(alive, views, lists)
    requires t in views && ListReduced(alive, alive', lists, lists', t, e)
    requires Removed(views[t], v, t, place, ManagedOf(arches), e, removed)
    ensures var views' := views[t := v];
      && RecordsOk(alive', arches, root, dirty, dead) && StoresOk(views', place, arches)
      && ListsOk(alive', views', lists')
      && TakenOut(views, views', t, e, removed)
  {
    var views' := views[t := v];
    if e in alive { RelistedIsOk(alive, arches, root, dirty, dead, e, alive'[e].compList); }
    assert TrimmedIn(views[t], arches, {});
    OthersDidNotChange(views, v, place, arches, t, e);
    forall u, f | u != t || f != e ensures Holds(views', u, f) <==> Holds(views, u, f) {
      assert HandleOf(views', u, f) == HandleOf(views, u, f);
    }
    ChangedListIsOk(alive, alive', views, views', lists, lists', t, e);
  }

  // === Tearing an entity down === //

  /** The components of the first `i` types were dropped, each once and with the value it had. */
  ghost predicate TornDown(before: Views, after: Views, keys: seq<CompType>, i: int, e: Entity,
                           dropped: map<CompType, Value>)
  {
    && 0 <= i <= |keys| && NoRepeats(keys)
    && (forall t {:trigger Holds(after, t, e)} :: Holds(after, t, e) <==> t in keys[i..])
    && (forall t {:trigger ComponentOf(after, t, e)} :: t in keys[i..] ==>
         ComponentOf(after, t, e) == ComponentOf(before, t, e))
    && dropped.Keys == Elems(keys[..i])
    && (forall t {:trigger dropped[t]} :: t in dropped ==> ComponentOf(before, t, e) == Some(dropped[t]))
    && OthersKept(before, after, e)
  }

  /** Everything was dropped. */
  ghost predicate AllTornDown(before: Views, after: Views, e: Entity, dropped: map<CompType, Value>) {
    && OthersKept(before, after, e) && (forall t :: !Holds(after, t, e))
    && (forall t {:trigger dropped[t]} :: t in dropped ==> ComponentOf(before, t, e) == Some(dropped[t]))
    && (forall t {:trigger t in dropped} {:trigger Holds(before, t, e)} :: t in dropped <==> Holds(before, t, e))
  }

  /** The types in the order of a component list. */
  ghost predicate InListOrder(order: seq<CompType>, list: Ptr, lists: map<Ptr, Entry>) {
    list in lists && order == lists[list].keys
  }

  /** No component of another entity changed, nor its handle. */
  ghost predicate OthersKept(before: Views, after: Views, e: Entity) {
    forall t, f {:trigger ComponentOf(after, t, f)} {:trigger HandleOf(after, t, f)} :: f != e ==>
      ComponentOf(after, t, f) == ComponentOf(before, t, f) && HandleOf(after, t, f) == HandleOf(before, t, f)
  }

  lemma TearDownStart(alive: Alive, views: Views, lists: map<Ptr, Entry>, e: Entity)
    requires ListsOk(alive, views, lists) && e in alive
    requires forall p :: p in lists ==> Ascending(lists[p].keys)
    ensures alive[e].compList in lists && TornDown(views, views, lists[alive[e].compList].keys, 0, e, map[])
    ensures forall t :: Holds(views, t, e) <==> t in lists[alive[e].compList].keys
  {
    assert ListOkFor(alive[e], e, views, lists);
    var keys := lists[alive[e].compList].keys;
    assert keys[0..] == keys && Elems(keys[..0]) == {};
  }

  /** One more component is dropped. */
  lemma TearDownMore(before: Views, mid: Views, after: Views, keys: seq<CompType>, i: int, e: Entity,
                     dropped: map<CompType, Value>, value: Value)
    requires TornDown(before, mid, keys, i, e, dropped) && i < |keys|
    requires TakenOut(mid, after, keys[i], e, Some(value))
    ensures TornDown(before, after, keys, i + 1, e, dropped[keys[i] := value])
  {
    RestWithoutHead(keys, i);
    assert keys[..i + 1] == keys[..i] + [keys[i]];
    ElemsSnoc(keys[..i], keys[i]);
    forall t ensures t in keys[i + 1..] <==> t in keys[i..] && t != keys[i] {
      assert t in keys[i + 1..] <==> t in Elems(keys[i + 1..]);
      assert t in keys[i..] <==> t in Elems(keys[i..]);
    }
    forall t ensures Holds(after, t, e) <==> t in keys[i + 1..] {
      if t != keys[i] { assert HandleOf(after, t, e) == HandleOf(mid, t, e); }
      assert Holds(mid, t, e) <==> t in keys[i..];
    }
    forall t | t in keys[i + 1..] ensures ComponentOf(after, t, e) == ComponentOf(before, t, e) {
      assert ComponentOf(mid, t, e) == ComponentOf(before, t, e);
    }
    forall t, f | f != e
      ensures ComponentOf(after, t, f) == ComponentOf(before, t, f) && HandleOf(after, t, f) == HandleOf(before, t, f)
    {
      assert ComponentOf(after, t, f) == ComponentOf(mid, t, f) && HandleOf(after, t, f) == HandleOf(mid, t, f);
    }
  }
}
