/** All component storages of a database, by component type, and the loops over the types an archetype
    manages (`src/database.rs`, `DbRoot::storages`). */
module StorageTables {
  import opened Iters
  import opened Arena
  import opened Heaps
  import opened Archetypes
  import opened Layout
  import opened StorageViews
  import opened Storages

  type Views = map<CompType, StView>

  ghost predicate AllSettled(views: Views, place: Alive, managed: Managed) {
    forall t {:trigger Settled(views[t], t, place, managed)} :: t in views ==> Settled(views[t], t, place, managed)
  }

  ghost predicate AllSame(before: Views, after: Views) {
    before.Keys == after.Keys && forall t {:trigger after[t]} :: t in before ==> SameComponents(before[t], after[t])
  }

  /** In every storage, only the list of `a` may have grown, to at least `len` heaps. */
  ghost predicate AllGrownTo(before: Views, after: Views, a: Ptr, len: int) {
    forall t {:trigger after[t]} :: t in before && t in after ==>
      GrownIfAtAll(before[t].heaps, after[t].heaps, a, len)
  }

  /** Heap `i` of an archetype's list exists and has as many slots as entity heap `i` has cells. */
  lemma ListsAreHeaps(v: StView, t: CompType, place: Alive, managed: Managed, a: Ptr)
    requires Settled(v, t, place, managed)
    ensures forall i :: 0 <= i < |ListOf(v, a)| ==>
      ListOf(v, a)[i] in v.mem.heaps && |v.mem.heaps[ListOf(v, a)[i]].slots| == HeapCap(i)
  {
    if a in v.heaps {
      assert ListOk(v, a);
      forall i | 0 <= i < |v.heaps[a]|
        ensures v.heaps[a][i] in v.mem.heaps && |v.mem.heaps[v.heaps[a][i]].slots| == HeapCap(i)
      {
        assert RoleOk(v, t, managed, v.heaps[a][i]);
      }
    }
  }

  /** A storage none of whose objects were written is as it was. */
  twostate lemma Untouched(s: Storage)
    requires old(s.Valid())
    requires unchanged(s, s.anon, s.anon.blocks, s.space)
    ensures s.Valid() && s.View() == old(s.View())
  {
  }

  class StorageTable {
    var stores: map<CompType, Storage>
    /** What the storages hold. */
    ghost var views: Views
    ghost var Repr: set<object>

    /** The storage of a type, if there is one, owns its objects alone, and holds what it is said to hold. */
    ghost predicate StoreOk(t: CompType)
      reads this, Repr
    {
      && this in Repr && (t in views <==> t in stores)
      && (t in stores ==>
            && stores[t] in Repr && stores[t].Repr <= Repr && this !in stores[t].Repr && stores[t].ty == t
            && stores[t].Repr == {stores[t], stores[t].anon, stores[t].anon.blocks, stores[t].space}
            && (forall u {:trigger stores[u]} :: u in stores && u != t ==> stores[t].Repr !! stores[u].Repr)
            && stores[t].Valid() && stores[t].View() == views[t])
    }

    ghost predicate Valid()
      reads this, Repr
    {
      forall t {:trigger StoreOk(t)} :: StoreOk(t)
    }

    constructor ()
      ensures Valid() && Repr == {this} && views == map[]
    {
      stores, views := map[], map[];
      Repr := {this};
    }

    /** The storage of a type, created on first use. */
    method GetStorage(t: CompType) returns (s: Storage)
      requires Valid()
      modifies this
      ensures Valid() && fresh(Repr - old(Repr)) && old(Repr) <= Repr
      ensures t in stores && s == stores[t] && t in views
      ensures t in old(views) ==> stores == old(stores) && Repr == old(Repr) && views == old(views)
      ensures t !in old(views) ==>
        && views == old(views)[t := views[t]]
        && views[t].mappings == map[] && views[t].heaps == map[]
        && forall place, managed :: Settled(views[t], t, place, managed)
    {
      assert StoreOk(t);
      if t in stores {
        return stores[t];
      }
      s := new Storage(t);
      Adopt(t, s);
    }

    method Adopt(t: CompType, s: Storage)
      requires Valid() && t !in stores && s.Valid() && s.ty == t && s.Repr !! Repr
      modifies this
      ensures Valid() && Repr == old(Repr) + s.Repr
      ensures stores == old(stores)[t := s] && views == old(views)[t := s.View()]
    {
      ghost var before, owned := stores, Repr;
      forall u | u in stores ensures stores[u].Repr <= owned && stores[u].Repr !! s.Repr { assert StoreOk(u); }
      stores := stores[t := s];
      views := views[t := s.View()];
      Repr := Repr + s.Repr;
      forall u ensures StoreOk(u) {
        assert old(StoreOk(u));
        if u in stores && u != t { assert stores[u] == before[u]; Untouched(stores[u]); }
      }
    }

    /** `get_component`: the handle of an entity's component, if it has one. */
    method GetComponent(t: CompType, e: Entity) returns (handle: Option<SlotId>)
      requires Valid()
      ensures handle == if t in views && e in views[t].mappings then Some(views[t].mappings[e].handle) else None
    {
      assert StoreOk(t);
      if t !in stores {
        return None;
      }
      handle := stores[t].GetComponent(e);
    }

    /** The lengths of the component heaps of one type for one archetype. */
    method HeapLengths(t: CompType, a: Ptr, ghost place: Alive, ghost managed: Managed) returns (lens: seq<int>)
      requires Valid() && AllSettled(views, place, managed)
      ensures t !in views ==> lens == []
      ensures t in views ==>
        && |lens| == |ListOf(views[t], a)|
        && forall i :: 0 <= i < |lens| ==> lens[i] == HeapCap(i)
    {
      assert StoreOk(t);
      if t !in stores {
        return [];
      }
      assert Settled(views[t], t, place, managed);
      ListsAreHeaps(views[t], t, place, managed, a);
      lens := stores[t].HeapLengths(a);
    }

    method SlotIn(t: CompType, a: Ptr, h: int, s: int) returns (handle: SlotId)
      requires Valid() && t in views && LocExists(views[t], a, External(h, s))
      ensures handle == HandleAt(views[t], a, External(h, s))
    {
      assert StoreOk(t);
      handle := stores[t].SlotIn(a, h, s);
    }

    /** Moves the component of one type. */
    method MoveOne(t: CompType, e: Entity, info: Info, src: Ptr, dstArch: Arch, ghost place: Alive,
                   ghost managed: Managed)
      requires Valid() && t in stores && t in views && Settled(views[t], t, place, managed)
      requires CanMove(place, managed, e, info, src, dstArch)
      modifies stores[t].Repr, this`views
      ensures Valid() && t in views && views == old(views)[t := views[t]]
      ensures Moved(old(views)[t], views[t], t, place[e := info], managed, info)
    {
      var store := stores[t];
      assert StoreOk(t);
      store.MoveEntity(e, info, src, dstArch, place, managed);
      views := views[t := store.View()];
      OneTouched(t);
    }

    /** Inserts a component into the storage of one type. */
    method InsertInto(t: CompType, e: Entity, value: Value, info: Info, arch: Arch, ghost place: Alive,
                      ghost managed: Managed)
      returns (replaced: Option<Value>, handle: SlotId)
      requires Valid() && t in stores && t in views && Settled(views[t], t, place, managed)
      requires MayHold(place, managed, e, info, arch, t)
      modifies Repr
      ensures stores == old(stores) && Repr == old(Repr)
      ensures Valid() && t in views && views == old(views)[t := views[t]]
      ensures Inserted(old(views)[t], views[t], t, place, managed, e, value, replaced, handle)
    {
      var store := stores[t];
      assert StoreOk(t);
      replaced, handle := store.Insert(e, value, info, arch, place, managed);
      views := views[t := store.View()];
      OneTouched(t);
    }

    /** Removes a component from the storage of one type. */
    method RemoveFrom(t: CompType, e: Entity, ghost place: Alive, ghost managed: Managed)
      returns (removed: Option<Value>)
      requires Valid() && t in stores && t in views && Settled(views[t], t, place, managed)
      modifies Repr
      ensures stores == old(stores) && Repr == old(Repr)
      ensures Valid() && t in views && views == old(views)[t := views[t]]
      ensures Removed(old(views)[t], views[t], t, place, managed, e, removed)
    {
      var store := stores[t];
      assert StoreOk(t);
      removed := store.Remove(e, place, managed);
      views := views[t := store.View()];
      OneTouched(t);
    }

    /** Only the storage of `t` was written. */
    twostate lemma OneTouched(t: CompType)
      requires old(Valid()) && t in stores && unchanged(this`stores, this`Repr)
      requires stores[t].Valid() && views == old(views)[t := stores[t].View()]
      requires forall o: object :: o in old(Repr) && o != this && o !in old(stores[t].Repr) ==> unchanged(o)
      ensures Valid()
    {
      assert old(StoreOk(t));
      forall u ensures StoreOk(u) {
        assert old(StoreOk(u));
        if u in stores && u != t {
          assert stores[u].Repr !! stores[t].Repr;
          assert stores[u] in stores[u].Repr && stores[u].anon in stores[u].Repr;
          assert stores[u].anon.blocks in stores[u].Repr && stores[u].space in stores[u].Repr;
          Untouched(stores[u]);
        }
      }
    }

    /** Moves the component of the next type, if it has a storage. */
    method MoveNext(t: CompType, e: Entity, info: Info, src: Ptr, dstArch: Arch, ghost place: Alive,
                    ghost managed: Managed, ghost before: Views, ghost done: seq<CompType>)
      requires Valid() && AllSettled(before, place, managed) && CanMove(place, managed, e, info, src, dstArch)
      requires MovedSoFar(before, views, done, place[e := info], managed, info) && t !in done
      modifies Repr
      ensures Valid() && Repr == old(Repr) && stores == old(stores)
      ensures MovedSoFar(before, views, done + [t], place[e := info], managed, info)
    {
      assert StoreOk(t);
      if t in stores {
        assert Settled(before[t], t, place, managed);
        MoveOne(t, e, info, src, dstArch, place, managed);
      }
    }

    /** Moves the components of the given managed types of one entity. */
    method MoveEach(types: seq<CompType>, e: Entity, info: Info, src: Ptr, dstArch: Arch,
                    ghost place: Alive, ghost managed: Managed)
      requires Valid() && AllSettled(views, place, managed)
      requires forall i, j :: 0 <= i < j < |types| ==> types[i] != types[j]
      requires CanMove(place, managed, e, info, src, dstArch)
      requires src in managed && forall t :: t in managed[src] || t in managed[info.phys] ==> t in types
      modifies Repr
      ensures Valid() && Repr == old(Repr) && stores == old(stores)
      ensures AllSettled(views, place[e := info], managed)
      ensures AllSame(old(views), views)
      ensures AllGrownTo(old(views), views, info.phys, info.heapIndex + 1)
    {
      var i := 0;
      ghost var before := views;
      while i < |types|
        invariant 0 <= i <= |types|
        invariant Valid() && Repr == old(Repr) && stores == old(stores)
        invariant MovedSoFar(before, views, types[..i], place[e := info], managed, info)
      {
        assert types[..i + 1] == types[..i] + [types[i]];
        MoveNext(types[i], e, info, src, dstArch, place, managed, before, types[..i]);
        i := i + 1;
      }
      assert types[..i] == types;
      MovedAll(before, views, types, place, managed, e, info);
    }

    method TruncateOne(t: CompType, a: Ptr, count: int, ghost place: Alive, ghost managed: Managed)
      requires Valid() && t in stores && t in views && Settled(views[t], t, place, managed) && count >= 0
      requires forall e :: e in place && place[e].phys == a ==> place[e].heapIndex < count
      modifies stores[t].Repr, this`views
      ensures Valid() && t in views && views == old(views)[t := views[t]]
      ensures Truncated(old(views)[t], views[t], t, place, managed, a, count)
    {
      var store := stores[t];
      assert StoreOk(t);
      store.Truncate(a, count, place, managed);
      views := views[t := store.View()];
      OneTouched(t);
    }

    /** Truncates the heaps of the next type, if it has a storage. */
    method TruncateNext(t: CompType, a: Ptr, count: int, ghost place: Alive, ghost managed: Managed,
                        ghost before: Views, ghost done: seq<CompType>)
      requires Valid() && AllSettled(before, place, managed) && count >= 0
      requires forall e :: e in place && place[e].phys == a ==> place[e].heapIndex < count
      requires TruncatedSoFar(before, views, done, place, managed, a, count) && t !in done
      modifies Repr
      ensures Valid() && Repr == old(Repr) && stores == old(stores)
      ensures TruncatedSoFar(before, views, done + [t], place, managed, a, count)
    {
      assert StoreOk(t);
      if t in stores {
        assert Settled(before[t], t, place, managed);
        TruncateOne(t, a, count, place, managed);
      }
    }

    /** Truncates the component heaps of one archetype in the storages of the given types. */
    method TruncateEach(types: seq<CompType>, a: Ptr, count: int, ghost place: Alive, ghost managed: Managed)
      requires Valid() && AllSettled(views, place, managed) && count >= 0
      requires forall i, j :: 0 <= i < j < |types| ==> types[i] != types[j]
      requires forall e :: e in place && place[e].phys == a ==> place[e].heapIndex < count
      requires a in managed && forall t :: t in managed[a] ==> t in types
      modifies Repr
      ensures Valid() && Repr == old(Repr) && stores == old(stores)
      ensures AllTruncated(old(views), views, place, managed, a, count)
    {
      var i := 0;
      ghost var before := views;
      while i < |types|
        invariant 0 <= i <= |types|
        invariant Valid() && Repr == old(Repr) && stores == old(stores)
        invariant TruncatedSoFar(before, views, types[..i], place, managed, a, count)
      {
        assert types[..i + 1] == types[..i] + [types[i]];
        TruncateNext(types[i], a, count, place, managed, before, types[..i]);
        i := i + 1;
      }
      assert types[..i] == types;
      TruncatedEverywhere(before, views, types, place, managed, a, count);
    }
  }

  ghost predicate MovedSoFar(before: Views, after: Views, done: seq<CompType>, place: Alive, managed: Managed,
                             info: Info)
  {
    && after.Keys == before.Keys
    && forall t {:trigger after[t]} :: t in before ==>
         if t in done then Moved(before[t], after[t], t, place, managed, info) else after[t] == before[t]
  }

  lemma MovedAll(before: Views, after: Views, types: seq<CompType>, place: Alive, managed: Managed, e: Entity,
                 info: Info)
    requires AllSettled(before, place, managed) && MovedSoFar(before, after, types, place[e := info], managed, info)
    requires e in place && place[e].phys in managed && info.phys in managed
    requires forall t :: t in managed[place[e].phys] || t in managed[info.phys] ==> t in types
    ensures AllSettled(after, place[e := info], managed) && AllSame(before, after)
    ensures AllGrownTo(before, after, info.phys, info.heapIndex + 1)
  {
    forall t | t in after
      ensures Settled(after[t], t, place[e := info], managed) && SameComponents(before[t], after[t])
    {
      if t !in types { UnmanagedStays(before[t], t, place, managed, e, info); }
    }
  }

  ghost predicate AllTruncated(before: Views, after: Views, place: Alive, managed: Managed, a: Ptr, count: int) {
    && after.Keys == before.Keys
    && forall t {:trigger after[t]} :: t in before ==> Truncated(before[t], after[t], t, place, managed, a, count)
  }

  ghost predicate TruncatedSoFar(before: Views, after: Views, done: seq<CompType>, place: Alive, managed: Managed,
                                 a: Ptr, count: int)
  {
    && after.Keys == before.Keys
    && forall t {:trigger after[t]} :: t in before ==>
         if t in done then Truncated(before[t], after[t], t, place, managed, a, count) else after[t] == before[t]
  }

  lemma TruncatedEverywhere(before: Views, after: Views, types: seq<CompType>, place: Alive, managed: Managed, a: Ptr,
                            count: int)
    requires AllSettled(before, place, managed) && TruncatedSoFar(before, after, types, place, managed, a, count)
    requires a in managed && forall t :: t in managed[a] ==> t in types
    ensures AllTruncated(before, after, place, managed, a, count)
  {
    forall t | t in before ensures Truncated(before[t], after[t], t, place, managed, a, count) {
      if t !in types && a in before[t].heaps { ListedIsManaged(before[t], t, place, managed, a); }
    }
  }

  /** A component of a type neither archetype manages is anonymous and need not move. */
  lemma UnmanagedStays(v: StView, t: CompType, place: Alive, managed: Managed, e: Entity, info: Info)
    requires Settled(v, t, place, managed) && e in place && place[e].phys in managed && info.phys in managed
    requires t !in managed[place[e].phys] && t !in managed[info.phys]
    ensures Settled(v, t, place[e := info], managed)
  {
    if e in v.mappings { assert MappingOk(v, t, place, managed, e); }
    AnonymousStays(v, t, place, managed, e, info);
  }
}
