/** One component storage, updated in place (`src/database.rs`, `DbStorageInner` and the methods that
    insert, remove, move and truncate its components). */
module Storages {
  import opened Iters
  import opened Arena
  import opened Heaps
  import opened Blocks
  import opened Archetypes
  import opened Layout
  import opened StorageViews

  /** No archetype keeps an empty list of component heaps, so one has a list only if it manages the
      type. */
  ghost predicate Tidy(v: StView) {
    forall a :: a in v.heaps ==> v.heaps[a] != []
  }

  /** The storage invariant between operations. */
  ghost predicate Settled(v: StView, t: CompType, place: Alive, managed: Managed) {
    StInv(v, t, place, managed, {}) && Tidy(v)
  }

  lemma ListedIsManaged(v: StView, t: CompType, place: Alive, managed: Managed, a: Ptr)
    requires Settled(v, t, place, managed) && a in v.heaps
    ensures a in managed && t in managed[a]
  {
    assert ListOk(v, a);
    var h := v.heaps[a][0];
    assert RoleOk(v, t, managed, h);
  }

  lemma EmptyListKeepsInv(v: StView, t: CompType, place: Alive, managed: Managed, a: Ptr)
    requires StInv(v, t, place, managed, {}) && a !in v.heaps
    ensures StInv(v.(heaps := v.heaps[a := []]), t, place, managed, {})
  {
    var w := v.(heaps := v.heaps[a := []]);
    forall e | e in v.mappings ensures MappingOk(w, t, place, managed, e) { assert MappingOk(v, t, place, managed, e); }
    forall s | w.mem.HasSlot(s) ensures OwnerOk(w, s) { assert OwnerOk(v, s); }
    forall h | h in w.mem.heaps ensures RoleOk(w, t, managed, h) { assert RoleOk(v, t, managed, h); }
    forall b | b in w.heaps ensures ListOk(w, b) { if b in v.heaps { assert ListOk(v, b); } }
    forall b | b in w.lots ensures LotOk(w, {}, b) { assert LotOk(v, {}, b); }
  }

  /** Only the list of `a` may have grown, to at least `len` heaps. */
  ghost predicate GrownTo(before: map<Ptr, seq<HeapId>>, after: map<Ptr, seq<HeapId>>, a: Ptr, len: int) {
    var list := if a in before then before[a] else [];
    && after.Keys == before.Keys + {a}
    && (forall b :: b in before && b != a ==> after[b] == before[b])
    && list <= after[a]
    && |after[a]| == if |list| > len then |list| else len
  }

  ghost predicate GrownIfAtAll(before: map<Ptr, seq<HeapId>>, after: map<Ptr, seq<HeapId>>, a: Ptr, len: int) {
    before != after ==> GrownTo(before, after, a, len)
  }

  /** The list of `a`, opened if it was missing. */
  ghost function WithList(v: StView, a: Ptr): StView {
    v.(heaps := v.heaps[a := ListOf(v, a)])
  }

  /** The list of `a` was extended to no more than `count` heaps, if at all, and no component was lost. */
  ghost predicate Extended(u: StView, v: StView, a: Ptr, count: int) {
    && SameComponents(u, v) && v.mappings == u.mappings
    && a in u.heaps && a in v.heaps && v.heaps == u.heaps[a := v.heaps[a]]
    && u.heaps[a] <= v.heaps[a] && (|v.heaps[a]| <= count || v.heaps[a] == u.heaps[a])
  }

  lemma ExtendedByNone(u: StView, a: Ptr, count: int)
    requires a in u.heaps
    ensures Extended(u, u, a, count)
  {
    assert u.heaps[a := u.heaps[a]] == u.heaps;
  }

  lemma ExtendedMore(u: StView, v: StView, w: StView, a: Ptr, h: HeapId, count: int)
    requires Extended(u, v, a, count) && |v.heaps[a]| < count
    requires SameComponents(v, w) && w.mappings == v.mappings && w.heaps == v.heaps[a := v.heaps[a] + [h]]
    ensures Extended(u, w, a, count)
  {
  }

  lemma ExtendedIsGrown(u: StView, v: StView, t: CompType, place: Alive, managed: Managed, a: Ptr, count: int)
    requires Tidy(u) && StInv(v, t, place, managed, {})
    requires Extended(WithList(u, a), v, a, count) && |v.heaps[a]| >= count > 0
    ensures Settled(v, t, place, managed) && SameComponents(u, v) && v.mappings == u.mappings
    ensures GrownTo(u.heaps, v.heaps, a, count)
  {
  }

  /** Every other entity's component is untouched. */
  ghost predicate OthersUnchanged(v: StView, r: StView, e: Entity) {
    forall f :: f in v.mappings && f != e ==>
      && f in r.mappings && r.mappings[f].handle == v.mappings[f].handle
      && (v.mem.HasSlot(v.mappings[f].handle) ==>
            && r.mem.HasSlot(v.mappings[f].handle)
            && r.mem.Owner(v.mappings[f].handle) == v.mem.Owner(v.mappings[f].handle)
            && r.mem.Deref(v.mappings[f].handle) == v.mem.Deref(v.mappings[f].handle))
  }

  /** What an entity's component reads as. */
  ghost function Component(v: StView, e: Entity): Option<Value> {
    if e in v.mappings && v.mem.HasSlot(v.mappings[e].handle) then v.mem.Deref(v.mappings[e].handle) else None
  }

  /** Entity `e` can be laid out as in `info`: nobody else is there. */
  ghost predicate CanMove(place: Alive, managed: Managed, e: Entity, info: Info, src: Ptr, dstArch: Arch) {
    && e in place && place[e].phys == src && info.phys in managed && dstArch.managed == managed[info.phys]
    && ArchOk(dstArch)
    && (dstArch.managed != {} ==>
          && Occupied(dstArch, info.Place())
          && !(src == info.phys && place[e].Place() == info.Place())
          && forall f :: f in place && place[f].phys == info.phys ==> place[f].Place() != info.Place())
  }

  /** Nobody but `e` is laid out at the place of `info`. */
  ghost predicate Alone(place: Alive, e: Entity, info: Info) {
    forall f :: f in place && f != e && place[f].phys == info.phys ==> place[f].Place() != info.Place()
  }

  /** The layout `info` of `e`, in an archetype like `arch`, prescribes a slot for a component of type `t`. */
  ghost predicate MayHold(place: Alive, managed: Managed, e: Entity, info: Info, arch: Arch, t: CompType) {
    && e in place && place[e] == info && info.phys in managed && arch.managed == managed[info.phys] && ArchOk(arch)
    && (t in arch.managed ==> Occupied(arch, info.Place()) && Alone(place, e, info))
  }

  /** A component was inserted or overwritten; nobody else's changed. */
  ghost predicate Inserted(before: StView, after: StView, t: CompType, place: Alive, managed: Managed,
                           e: Entity, value: Value, replaced: Option<Value>, handle: SlotId)
  {
    && Settled(after, t, place, managed)
    && after.mappings.Keys == before.mappings.Keys + {e} && after.mappings[e].handle == handle
    && Component(after, e) == Some(value) && replaced == Component(before, e)
    && OthersUnchanged(before, after, e)
    && (e in before.mappings ==> handle == before.mappings[e].handle)
    && e in place && GrownIfAtAll(before.heaps, after.heaps, place[e].phys, place[e].heapIndex + 1)
  }

  ghost predicate Removed(before: StView, after: StView, t: CompType, place: Alive, managed: Managed,
                          e: Entity, removed: Option<Value>)
  {
    && Settled(after, t, place, managed)
    && after.mappings == before.mappings - {e} && after.heaps == before.heaps
    && removed == Component(before, e) && (removed.Some? <==> e in before.mappings)
    && OthersUnchanged(before, after, e)
  }

  ghost predicate Moved(before: StView, after: StView, t: CompType, place: Alive, managed: Managed, info: Info) {
    && Settled(after, t, place, managed)
    && SameComponents(before, after)
    && GrownIfAtAll(before.heaps, after.heaps, info.phys, info.heapIndex + 1)
  }

  ghost predicate Truncated(before: StView, after: StView, t: CompType, place: Alive, managed: Managed, a: Ptr,
                            count: int)
  {
    && Settled(after, t, place, managed)
    && SameComponents(before, after)
    && after.heaps - {a} == before.heaps - {a}
    && ListOf(after, a) <= ListOf(before, a)
    && |ListOf(after, a)| == if 0 <= count < |ListOf(before, a)| then count else |ListOf(before, a)|
  }

  /** The list of `a` was cut down to no fewer than `count` heaps, if at all, and no component was lost. */
  ghost predicate CutDown(u: StView, v: StView, a: Ptr, count: int) {
    && SameComponents(u, v)
    && a in u.heaps && a in v.heaps && v.heaps == u.heaps[a := v.heaps[a]]
    && v.heaps[a] <= u.heaps[a] && (|v.heaps[a]| >= count || v.heaps[a] == u.heaps[a])
  }

  lemma CutDownNone(u: StView, a: Ptr, count: int)
    requires a in u.heaps
    ensures CutDown(u, u, a, count)
  {
    assert u.heaps[a := u.heaps[a]] == u.heaps;
  }

  lemma CutDownMore(u: StView, v: StView, w: StView, a: Ptr, count: int)
    requires CutDown(u, v, a, count) && |v.heaps[a]| > count >= 0 && SameComponents(v, w)
    requires w.heaps == v.heaps[a := v.heaps[a][..|v.heaps[a]| - 1]]
    ensures CutDown(u, w, a, count)
  {
  }

  lemma CutDownIsTruncated(u: StView, v: StView, t: CompType, place: Alive, managed: Managed, a: Ptr, count: int)
    requires Settled(u, t, place, managed) && StInv(v, t, place, managed, {})
    requires CutDown(u, v, a, count) && |v.heaps[a]| <= count
    ensures Truncated(u, if count == 0 then v.(heaps := v.heaps - {a}) else v, t, place, managed, a, count)
  {
    if count == 0 {
      EmptyListIsDropped(v, t, place, managed, a);
    }
  }

  lemma HandlesAreDistinct(v: StView, t: CompType, place: Alive, managed: Managed, spare: set<(BlockId, int)>,
                           e: Entity, f: Entity)
    requires StInv(v, t, place, managed, spare) && e in v.mappings && f in v.mappings && e != f
    ensures v.mappings[e].handle != v.mappings[f].handle
  {
    assert MappingOk(v, t, place, managed, e) && MappingOk(v, t, place, managed, f);
  }

  class Storage {
    const ty: CompType
    var mappings: map<Entity, Mapping>
    var heaps: map<Ptr, seq<HeapId>>
    const anon: BlockAllocator
    const space: HeapSpace
    ghost var roles: map<HeapId, Role>

    ghost const Repr: set<object>

    ghost function View(): StView
      reads this, anon, anon.blocks, space
    {
      StView(mappings, heaps, anon.Lots(), roles, space.State())
    }

    ghost predicate Valid()
      reads this, anon, anon.blocks, space
    {
      Repr == {this, anon, anon.blocks, space} && anon.Valid() && space.Valid()
    }

    constructor (ty: CompType)
      ensures Valid() && fresh(Repr) && this.ty == ty
      ensures mappings == map[] && heaps == map[]
      ensures forall place, managed :: Settled(View(), ty, place, managed)
    {
      this.ty := ty;
      mappings, heaps, roles := map[], map[], map[];
      var a := new BlockAllocator();
      var s := new HeapSpace();
      anon, space := a, s;
      Repr := {this, a, a.blocks, s};
    }

    /** `get_component`. */
    function GetComponent(e: Entity): (handle: Option<SlotId>)
      reads this
      ensures handle == if e in mappings then Some(mappings[e].handle) else None
    {
      if e in mappings then Some(mappings[e].handle) else None
    }

    /** `heaps_from_archetype_aba`: the lengths of the component heaps of an archetype. */
    method HeapLengths(a: Ptr) returns (lens: seq<int>)
      requires Valid() && forall i :: 0 <= i < |ListOf(View(), a)| ==> ListOf(View(), a)[i] in space.heaps
      ensures |lens| == |ListOf(View(), a)|
      ensures forall i :: 0 <= i < |lens| ==>
        ListOf(View(), a)[i] in View().mem.heaps && lens[i] == |View().mem.heaps[ListOf(View(), a)[i]].slots|
    {
      lens := [];
      if a !in heaps {
        return;
      }
      var i := 0;
      while i < |heaps[a]|
        invariant 0 <= i <= |heaps[a]| && |lens| == i
        invariant forall k :: 0 <= k < i ==> heaps[a][k] in space.heaps && lens[k] == |space.heaps[heaps[a][k]].slots|
      {
        assert ListOf(View(), a)[i] in space.heaps;
        lens := lens + [|space.heaps[heaps[a][i]].slots|];
        i := i + 1;
      }
    }

    /** The slot at a position of an archetype's component heaps. */
    method SlotIn(a: Ptr, h: int, s: int) returns (handle: SlotId)
      requires Valid() && LocExists(View(), a, External(h, s))
      ensures handle == HandleAt(View(), a, External(h, s))
    {
      handle := space.heaps[heaps[a][h]].slots[s];
    }

    /** Appends one heap to a list that is still shorter than `count`. */
    method AddHeap(a: Ptr, len: int, ghost count: int, ghost u: StView, ghost place: Alive, ghost managed: Managed)
      requires Valid() && StInv(View(), ty, place, managed, {}) && Extended(u, View(), a, count)
      requires a in managed && ty in managed[a] && len == HeapCap(|heaps[a]|) && |heaps[a]| < count
      modifies this, space
      ensures Valid() && StInv(View(), ty, place, managed, {}) && Extended(u, View(), a, count)
      ensures |heaps[a]| == |old(heaps)[a]| + 1
    {
      ghost var v := View();
      var h := space.NewHeap(len);
      roles := roles[h := OfArchetype(a, |heaps[a]|)];
      heaps := heaps[a := heaps[a] + [h]];
      HeapAddedKeepsInv(v, View(), ty, place, managed, {}, a, h);
      ExtendedMore(u, v, View(), a, h, count);
    }

    /** Extends an archetype's component heaps to match its entity heaps up to `len`. */
    method EnsureHeaps(a: Ptr, len: int, arch: Arch, ghost place: Alive, ghost managed: Managed)
      requires Valid() && Settled(View(), ty, place, managed)
      requires a in managed && ty in managed[a]
      requires ArchOk(arch) && 0 < len <= |arch.heaps|
      modifies this, space
      ensures Valid() && Settled(View(), ty, place, managed)
      ensures SameComponents(old(View()), View()) && mappings == old(mappings)
      ensures GrownTo(old(heaps), heaps, a, len)
    {
      ghost var u := View();
      OpenList(a, place, managed);
      FillList(a, len, arch, place, managed);
      ExtendedIsGrown(u, View(), ty, place, managed, a, len);
    }

    /** The vacant entry of the heap map, made an empty list. */
    method OpenList(a: Ptr, ghost place: Alive, ghost managed: Managed)
      requires Valid() && StInv(View(), ty, place, managed, {})
      modifies this`heaps
      ensures View() == WithList(old(View()), a)
      ensures Valid() && StInv(View(), ty, place, managed, {})
    {
      if a !in heaps {
        EmptyListKeepsInv(View(), ty, place, managed, a);
        heaps := heaps[a := []];
      } else {
        assert heaps[a := heaps[a]] == heaps;
      }
    }

    method FillList(a: Ptr, len: int, arch: Arch, ghost place: Alive, ghost managed: Managed)
      requires Valid() && StInv(View(), ty, place, managed, {})
      requires a in heaps && a in managed && ty in managed[a]
      requires ArchOk(arch) && 0 < len <= |arch.heaps|
      modifies this, space
      ensures Valid() && StInv(View(), ty, place, managed, {})
      ensures Extended(old(View()), View(), a, len) && |heaps[a]| >= len
    {
      ExtendedByNone(View(), a, len);
      ghost var u := View();
      while |heaps[a]| < len
        invariant Valid() && StInv(View(), ty, place, managed, {}) && Extended(u, View(), a, len)
        decreases len - |heaps[a]|
      {
        AddHeap(a, |arch.heaps[|heaps[a]|]|, len, u, place, managed);
      }
    }

    /** Makes sure that the component heaps reach an unoccupied position. */
    method OpenSpot(info: Info, arch: Arch, ghost place: Alive, ghost managed: Managed)
      requires Valid() && Settled(View(), ty, place, managed)
      requires info.phys in managed && ty in managed[info.phys] && ArchOk(arch) && Occupied(arch, info.Place())
      requires forall f :: f in place && f in mappings && place[f].phys == info.phys ==>
        place[f].Place() != info.Place()
      modifies this, space
      ensures Valid() && Settled(View(), ty, place, managed)
      ensures SameComponents(old(View()), View()) && mappings == old(mappings)
      ensures GrownTo(old(heaps), heaps, info.phys, info.heapIndex + 1)
      ensures FreeSpot(View(), info.phys, External(info.heapIndex, info.slotIndex))
    {
      EnsureHeaps(info.phys, info.heapIndex + 1, arch, place, managed);
      ExternalSpotExists(View(), ty, place, managed, info.phys, info.Place());
      UnplacedSpotIsFree(View(), ty, place, managed, {}, info.phys, info.Place());
    }

    /** Reserves an anonymous slot. */
    method ReserveAnonymous(ghost place: Alive, ghost managed: Managed) returns (loc: Loc)
      requires Valid() && StInv(View(), ty, place, managed, {})
      modifies this, anon, anon.blocks, space
      ensures Valid() && loc.Anonymous? && heaps == old(heaps) && mappings == old(mappings)
      ensures StInv(View(), ty, place, managed, Reserved(loc)) && SameComponents(old(View()), View())
      ensures loc.block in anon.Lots() && loc.slot in anon.Lots()[loc.block].taken
      ensures forall phys :: FreeSpot(View(), phys, loc)
    {
      ghost var v := View();
      var b, i := anon.Alloc(space);
      loc := Anonymous(b, i);
      if b !in v.lots {
        roles := roles[anon.Lots()[b].heap := OfBlock(b)];
      }
      SlotReservedKeepsInv(v, View(), ty, place, managed, b, i);
    }

    /** Releases the reservation of a spare anonymous slot. */
    method ReleaseAnonymous(loc: Loc, ghost place: Alive, ghost managed: Managed)
      requires Valid() && loc.Anonymous? && StInv(View(), ty, place, managed, Reserved(loc))
      requires FreeSpot(View(), 0, loc) && loc.slot in anon.Lots()[loc.block].taken
      modifies this, anon, anon.blocks, space
      ensures Valid() && heaps == old(heaps) && mappings == old(mappings)
      ensures StInv(View(), ty, place, managed, {}) && SameComponents(old(View()), View())
    {
      ghost var v := View();
      ghost var h := v.lots[loc.block].heap;
      assert LotOk(v, Reserved(loc), loc.block);
      var destroyed := anon.Dealloc(loc.block, loc.slot, space);
      if destroyed {
        roles := roles - {h};
      }
      SlotReleasedKeepsInv(v, View(), ty, place, managed, loc.block, loc.slot, destroyed);
    }

    /** The heap and index of a location, for an entity laid out in `phys`. */
    method Locate(loc: Loc, phys: Ptr) returns (heap: HeapId, index: int)
      requires Valid() && LocExists(View(), phys, loc)
      ensures Spot(heap, index) == SpotOf(View(), phys, loc)
    {
      match loc {
        case Anonymous(b, i) => heap, index := anon.BlockHeap(b), i;
        case External(h, s) => heap, index := heaps[phys][h], s;
      }
    }

    /** Swaps the slots at two locations. */
    method SwapAt(from: Loc, src: Ptr, to: Loc, dst: Ptr)
      requires Valid() && LocExists(View(), src, from) && LocExists(View(), dst, to)
      modifies space
      ensures Valid() && View() == old(View()).(mem := View().mem)
      ensures var here, there := SpotOf(old(View()), src, from), SpotOf(old(View()), dst, to);
              SwapRel(old(View()).mem, View().mem, here.heap, here.index, there.heap, there.index)
    {
      var h1, i1 := Locate(from, src);
      var h2, i2 := Locate(to, dst);
      space.SwapSlots(h1, i1, h2, i2);
    }

    /** Swaps a component into a free spot and records its new location. */
    method Relocate(e: Entity, src: Ptr, dst: Ptr, loc: Loc, ghost spare: set<(BlockId, int)>, ghost info: Info,
                    ghost place: Alive, ghost managed: Managed)
      requires Valid() && CanRelocate(View(), ty, place, managed, spare, e, info, loc)
      requires src == place[e].phys && dst == info.phys
      modifies this`mappings, space
      ensures Valid() && SameComponents(old(View()), View())
      ensures mappings == old(mappings)[e := old(mappings)[e].(loc := loc)]
      ensures StInv(View(), ty, place[e := info], managed, spare - Reserved(loc) + Reserved(old(mappings)[e].loc))
      ensures heaps == old(heaps) && anon.Lots() == old(anon.Lots())
      ensures FreeSpot(View(), src, old(mappings)[e].loc) || (src == dst && old(mappings)[e].loc == loc)
    {
      ghost var v := View();
      SwapAt(mappings[e].loc, src, loc, dst);
      mappings := mappings[e := mappings[e].(loc := loc)];
      RelocationOutcome(v, View(), ty, place, managed, spare, e, info, loc);
    }

    /** `move_entity_into_empty_never_truncate`: brings a component in line with its entity's new layout
        `info`. Its archetype `src` may manage the type or not, and so may the new one. */
    method MoveEntity(e: Entity, info: Info, src: Ptr, dstArch: Arch, ghost place: Alive, ghost managed: Managed)
      requires Valid() && Settled(View(), ty, place, managed)
      requires CanMove(place, managed, e, info, src, dstArch)
      modifies this, anon, anon.blocks, space
      ensures Valid() && Moved(old(View()), View(), ty, place[e := info], managed, info)
    {
      if e !in mappings {
        AnonymousStays(View(), ty, place, managed, e, info);
        return;
      }
      if info.phys in heaps {
        ListedIsManaged(View(), ty, place, managed, info.phys);
      }
      if info.phys in heaps || ty in dstArch.managed {
        MoveOutside(e, info, src, dstArch, place, managed);
      } else {
        MoveInside(e, info, src, place, managed);
      }
    }

    /** The new layout does not manage the type: an external component moves to an anonymous slot. */
    method MoveInside(e: Entity, info: Info, src: Ptr, ghost place: Alive, ghost managed: Managed)
      requires Valid() && Settled(View(), ty, place, managed)
      requires e in mappings && e in place && place[e].phys == src
      requires info.phys in managed && ty !in managed[info.phys]
      modifies this, anon, anon.blocks, space
      ensures Valid() && Moved(old(View()), View(), ty, place[e := info], managed, info)
    {
      if mappings[e].loc.Anonymous? {
        AnonymousStays(View(), ty, place, managed, e, info);
        return;
      }
      MoveToAnonymous(e, info, src, place, managed);
    }

    method MoveToAnonymous(e: Entity, info: Info, src: Ptr, ghost place: Alive, ghost managed: Managed)
      requires Valid() && Settled(View(), ty, place, managed)
      requires e in mappings && mappings[e].loc.External? && e in place && place[e].phys == src
      requires info.phys in managed && ty !in managed[info.phys]
      modifies this, anon, anon.blocks, space
      ensures Valid() && Settled(View(), ty, place[e := info], managed) && SameComponents(old(View()), View())
      ensures heaps == old(heaps)
    {
      var loc := ReserveAnonymous(place, managed);
      assert MappingOk(View(), ty, place, managed, e);
      Relocate(e, src, info.phys, loc, Reserved(loc), info, place, managed);
      assert Reserved(loc) - Reserved(loc) + {} == {};
    }

    /** The new layout manages the type: the component moves to the entity's own position. */
    method MoveOutside(e: Entity, info: Info, src: Ptr, dstArch: Arch, ghost place: Alive, ghost managed: Managed)
      requires Valid() && Settled(View(), ty, place, managed)
      requires e in mappings && CanMove(place, managed, e, info, src, dstArch) && ty in dstArch.managed
      modifies this, anon, anon.blocks, space
      ensures Valid() && Moved(old(View()), View(), ty, place[e := info], managed, info)
    {
      OpenSpot(info, dstArch, place, managed);
      Externalize(e, info, src, place, managed);
    }

    /** Writes an owner and a value at a location. */
    method WriteAt(loc: Loc, phys: Ptr, e: Entity, value: Value) returns (handle: SlotId)
      requires Valid() && LocExists(View(), phys, loc)
      modifies space
      ensures Valid() && View() == old(View()).(mem := View().mem)
      ensures handle == HandleAt(old(View()), phys, loc)
      ensures var spot := SpotOf(old(View()), phys, loc);
              WriteRel(old(View()).mem, View().mem, spot.heap, spot.index, Some(e), Some(value))
    {
      var h, i := Locate(loc, phys);
      handle := space.heaps[h].slots[i];
      var _ := space.SetPair(h, i, Some(e), Some(value));
    }

    /** Writes a new component into a free spot and maps its entity to it. */
    method Attach(e: Entity, phys: Ptr, loc: Loc, value: Value, ghost place: Alive, ghost managed: Managed)
      returns (handle: SlotId)
      requires Valid() && StInv(View(), ty, place, managed, Reserved(loc))
      requires e in place && e !in mappings && phys == place[e].phys
      requires LocFits(View(), ty, managed, place[e], loc) && FreeSpot(View(), phys, loc)
      modifies this`mappings, space
      ensures Valid() && StInv(View(), ty, place, managed, {})
      ensures mappings == old(mappings)[e := Mapping(handle, loc)] && heaps == old(heaps)
      ensures Component(View(), e) == Some(value) && OthersUnchanged(old(View()), View(), e)
    {
      ghost var v := View();
      handle := WriteAt(loc, phys, e, value);
      mappings := mappings[e := Mapping(handle, loc)];
      AttachedOutcome(v, View(), ty, place, managed, e, loc, value);
    }

    /** `insert_component`, for a live entity laid out as in `info` in an archetype like `arch`. */
    method Insert(e: Entity, value: Value, info: Info, arch: Arch, ghost place: Alive, ghost managed: Managed)
      returns (replaced: Option<Value>, handle: SlotId)
      requires Valid() && Settled(View(), ty, place, managed)
      requires MayHold(place, managed, e, info, arch, ty)
      modifies this, anon, anon.blocks, space
      ensures Valid() && Inserted(old(View()), View(), ty, place, managed, e, value, replaced, handle)
    {
      if e in mappings {
        ghost var v := View();
        replaced, handle := Replace(e, value, place, managed);
        ReplacedIsInserted(v, View(), ty, place, managed, e, value);
        return;
      }
      replaced := None;
      if info.phys in heaps {
        ListedIsManaged(View(), ty, place, managed, info.phys);
      }
      if info.phys in heaps || ty in arch.managed {
        handle := InsertOutside(e, value, info, arch, place, managed);
      } else {
        handle := InsertAnonymous(e, value, info, place, managed);
      }
    }

    method InsertOutside(e: Entity, value: Value, info: Info, arch: Arch, ghost place: Alive, ghost managed: Managed)
      returns (handle: SlotId)
      requires Valid() && Settled(View(), ty, place, managed) && e !in mappings
      requires MayHold(place, managed, e, info, arch, ty) && ty in arch.managed
      modifies this, anon, anon.blocks, space
      ensures Valid() && Inserted(old(View()), View(), ty, place, managed, e, value, None, handle)
    {
      ghost var u := View();
      OpenSpot(info, arch, place, managed);
      ghost var v := View();
      NothingReserved(v, ty, place, managed, info.heapIndex, info.slotIndex);
      handle := Attach(e, info.phys, External(info.heapIndex, info.slotIndex), value, place, managed);
      AttachedIsInserted(u, v, View(), ty, place, managed, e, value, handle);
    }

    method InsertAnonymous(e: Entity, value: Value, info: Info, ghost place: Alive, ghost managed: Managed)
      returns (handle: SlotId)
      requires Valid() && Settled(View(), ty, place, managed) && e !in mappings
      requires e in place && place[e] == info && info.phys in managed && ty !in managed[info.phys]
      modifies this, anon, anon.blocks, space
      ensures Valid() && Inserted(old(View()), View(), ty, place, managed, e, value, None, handle)
    {
      ghost var u := View();
      var loc := ReserveAnonymous(place, managed);
      ghost var v := View();
      handle := Attach(e, info.phys, loc, value, place, managed);
      AttachedIsInserted(u, v, View(), ty, place, managed, e, value, handle);
    }

    /** The entity already has the component: only its value changes. */
    method Replace(e: Entity, value: Value, ghost place: Alive, ghost managed: Managed)
      returns (replaced: Option<Value>, handle: SlotId)
      requires Valid() && Settled(View(), ty, place, managed) && e in mappings
      modifies space
      ensures Valid() && View() == old(View()).(mem := View().mem) && Settled(View(), ty, place, managed)
      ensures handle == mappings[e].handle && replaced == Component(old(View()), e)
      ensures Component(View(), e) == Some(value) && OthersUnchanged(old(View()), View(), e)
    {
      ghost var v := View();
      handle := mappings[e].handle;
      HandleIsDirect(v, ty, place, managed, e);
      var h, i := space.DirectSlot(handle);
      replaced := space.Overwrite(h, i, value);
      ReplacedOutcome(v, View(), ty, place, managed, e, h, i, value);
    }

    /** `remove_component`: unlinks the entity (which may already be dead), empties its slot and releases
        its reservation. */
    method Remove(e: Entity, ghost place: Alive, ghost managed: Managed) returns (removed: Option<Value>)
      requires Valid() && Settled(View(), ty, place, managed)
      modifies this, anon, anon.blocks, space
      ensures Valid() && Removed(old(View()), View(), ty, place, managed, e, removed)
    {
      if e !in mappings {
        assert mappings - {e} == mappings;
        return None;
      }
      ghost var v := View();
      var mapping := mappings[e];
      removed := Detach(e, place, managed);
      if mapping.loc.Anonymous? {
        ReleaseAnonymous(mapping.loc, place, managed);
      }
    }

    method Detach(e: Entity, ghost place: Alive, ghost managed: Managed) returns (removed: Option<Value>)
      requires Valid() && Settled(View(), ty, place, managed) && e in mappings
      modifies this`mappings, space
      ensures Valid() && StInv(View(), ty, place, managed, Reserved(old(mappings)[e].loc))
      ensures mappings == old(mappings) - {e} && heaps == old(heaps)
      ensures removed == Component(old(View()), e) && removed.Some?
      ensures OthersUnchanged(old(View()), View(), e)
      ensures e in place && FreeSpot(View(), place[e].phys, old(mappings)[e].loc)
      ensures old(mappings)[e].loc.Anonymous? ==>
        old(mappings)[e].loc.slot in anon.Lots()[old(mappings)[e].loc.block].taken
    {
      ghost var v := View();
      var handle := mappings[e].handle;
      HandleIsDirect(v, ty, place, managed, e);
      mappings := mappings - {e};
      var h, i := space.DirectSlot(handle);
      removed := space.SetPair(h, i, None, None);
      DetachedOutcome(v, View(), ty, place, managed, e, h, i);
    }

    /** `truncate_archetype_heap_len`: drops the component heaps past the archetype's entity heaps. */
    method Truncate(a: Ptr, count: int, ghost place: Alive, ghost managed: Managed)
      requires Valid() && Settled(View(), ty, place, managed) && count >= 0
      requires forall e :: e in place && place[e].phys == a ==> place[e].heapIndex < count
      modifies this, space
      ensures Valid() && Truncated(old(View()), View(), ty, place, managed, a, count)
    {
      if a !in heaps {
        return;
      }
      ghost var v := View();
      DropHeaps(a, count, place, managed);
      CutDownIsTruncated(v, View(), ty, place, managed, a, count);
      if count == 0 {
        heaps := heaps - {a};
      }
    }

    method DropHeaps(a: Ptr, count: int, ghost place: Alive, ghost managed: Managed)
      requires Valid() && StInv(View(), ty, place, managed, {}) && count >= 0 && a in heaps
      requires forall e :: e in place && place[e].phys == a ==> place[e].heapIndex < count
      modifies this, space
      ensures Valid() && StInv(View(), ty, place, managed, {})
      ensures CutDown(old(View()), View(), a, count) && |heaps[a]| <= count
    {
      CutDownNone(View(), a, count);
      ghost var u := View();
      while |heaps[a]| > count
        invariant Valid() && StInv(View(), ty, place, managed, {}) && CutDown(u, View(), a, count)
        decreases |heaps[a]|
      {
        DropLastHeap(a, count, u, place, managed);
      }
    }

    /** Drops one heap of a list that is still longer than `count`. */
    method DropLastHeap(a: Ptr, ghost count: int, ghost u: StView, ghost place: Alive, ghost managed: Managed)
      requires Valid() && StInv(View(), ty, place, managed, {}) && CutDown(u, View(), a, count)
      requires |heaps[a]| > count >= 0 && forall e :: e in place && place[e].phys == a ==> place[e].heapIndex < count
      modifies this, space
      ensures Valid() && StInv(View(), ty, place, managed, {}) && CutDown(u, View(), a, count)
      ensures |heaps[a]| == |old(heaps)[a]| - 1
    {
      ghost var v := View();
      var h := heaps[a][|heaps[a]| - 1];
      assert ListOk(v, a);
      space.DropHeap(h);
      roles := roles - {h};
      heaps := heaps[a := heaps[a][..|heaps[a]| - 1]];
      LastHeapDroppedKeepsInv(v, View(), ty, place, managed, a);
      CutDownMore(u, v, View(), a, count);
    }

    /** Swaps the component out of its anonymous or external slot, releasing an anonymous one. */
    method Externalize(e: Entity, info: Info, src: Ptr, ghost place: Alive, ghost managed: Managed)
      requires Valid() && Settled(View(), ty, place, managed)
      requires e in mappings && e in place && place[e].phys == src
      requires info.phys in managed && ty in managed[info.phys]
      requires FreeSpot(View(), info.phys, External(info.heapIndex, info.slotIndex))
      modifies this, anon, anon.blocks, space
      ensures Valid() && Settled(View(), ty, place[e := info], managed)
      ensures SameComponents(old(View()), View()) && heaps == old(heaps)
    {
      assert MappingOk(View(), ty, place, managed, e);
      var loc, was := External(info.heapIndex, info.slotIndex), mappings[e].loc;
      Relocate(e, src, info.phys, loc, {}, info, place, managed);
      assert {} - Reserved(loc) + Reserved(was) == Reserved(was);
      if was.Anonymous? {
        ReleaseAnonymous(was, place[e := info], managed);
      }
    }
  }

  lemma AttachedOutcome(v: StView, r: StView, t: CompType, place: Alive, managed: Managed, e: Entity, loc: Loc,
                        value: Value)
    requires StInv(v, t, place, managed, Reserved(loc)) && e in place && e !in v.mappings
    requires LocFits(v, t, managed, place[e], loc) && FreeSpot(v, place[e].phys, loc)
    requires var spot := SpotOf(v, place[e].phys, loc);
             WriteRel(v.mem, r.mem, spot.heap, spot.index, Some(e), Some(value))
    requires r == v.(mem := r.mem, mappings := v.mappings[e := Mapping(HandleAt(v, place[e].phys, loc), loc)])
    ensures StInv(r, t, place, managed, {})
    ensures Component(r, e) == Some(value) && OthersUnchanged(v, r, e)
  {
    AttachedKeepsInv(v, r, t, place, managed, e, loc, value);
    forall f | f in v.mappings ensures v.mappings[f].handle != HandleAt(v, place[e].phys, loc) {
      assert MappingOk(v, t, place, managed, f);
    }
  }

  lemma NothingReserved(v: StView, t: CompType, place: Alive, managed: Managed, h: int, s: int)
    requires StInv(v, t, place, managed, {})
    ensures StInv(v, t, place, managed, Reserved(External(h, s)))
  {
    assert Reserved(External(h, s)) == {};
  }

  /** What was attached once there was a free spot is inserted. */
  lemma AttachedIsInserted(u: StView, v: StView, r: StView, t: CompType, place: Alive, managed: Managed,
                           e: Entity, value: Value, handle: SlotId)
    requires SameComponents(u, v) && Tidy(v) && e !in u.mappings && e in place
    requires GrownIfAtAll(u.heaps, v.heaps, place[e].phys, place[e].heapIndex + 1)
    requires StInv(r, t, place, managed, {}) && r.heaps == v.heaps
    requires e in r.mappings && r.mappings == v.mappings[e := r.mappings[e]] && r.mappings[e].handle == handle
    requires Component(r, e) == Some(value) && OthersUnchanged(v, r, e)
    ensures Inserted(u, r, t, place, managed, e, value, None, handle)
  {
    assert r.mappings.Keys == u.mappings.Keys + {e};
  }

  lemma ReplacedIsInserted(u: StView, r: StView, t: CompType, place: Alive, managed: Managed, e: Entity, value: Value)
    requires e in u.mappings && r == u.(mem := r.mem) && Settled(r, t, place, managed)
    requires Component(r, e) == Some(value) && OthersUnchanged(u, r, e)
    ensures Inserted(u, r, t, place, managed, e, value, Component(u, e), r.mappings[e].handle)
  {
    assert MappingOk(r, t, place, managed, e);
    assert r.mappings.Keys == u.mappings.Keys + {e};
  }

  lemma ReplacedKeepsInv(v: StView, r: StView, t: CompType, place: Alive, managed: Managed, e: Entity,
                         h: HeapId, i: int, value: Value)
    requires StInv(v, t, place, managed, {}) && e in v.mappings && r == v.(mem := r.mem)
    requires v.mem.Has(h, i) && v.mem.SlotAt(h, i) == v.mappings[e].handle
    requires WriteRel(v.mem, r.mem, h, i, Some(e), Some(value))
    ensures StInv(r, t, place, managed, {})
  {
    assert MappingOk(v, t, place, managed, e);
    forall f | f in r.mappings ensures MappingOk(r, t, place, managed, f) { assert MappingOk(v, t, place, managed, f); }
    forall s | r.mem.HasSlot(s) ensures OwnerOk(r, s) { assert OwnerOk(v, s); }
    forall g | g in r.mem.heaps ensures RoleOk(r, t, managed, g) { assert RoleOk(v, t, managed, g); }
    forall a | a in r.heaps ensures ListOk(r, a) { assert ListOk(v, a); }
    forall b | b in r.lots ensures LotOk(r, {}, b) {
      assert LotOk(v, {}, b);
      var g := v.lots[b].heap;
      forall k | r.mem.Has(g, k) ensures v.mem.HasSlot(v.mem.SlotAt(g, k))
        && (r.mem.Owner(v.mem.SlotAt(g, k)).Some? <==> v.mem.Owner(v.mem.SlotAt(g, k)).Some?)
      {
        assert SlotOk(v.mem, g, k);
      }
    }
  }

  lemma ReplacedOutcome(v: StView, r: StView, t: CompType, place: Alive, managed: Managed, e: Entity,
                        h: HeapId, i: int, value: Value)
    requires StInv(v, t, place, managed, {}) && e in v.mappings && r == v.(mem := r.mem)
    requires v.mem.Has(h, i) && v.mem.SlotAt(h, i) == v.mappings[e].handle
    requires v.mem.HasSlot(v.mappings[e].handle)
    requires WriteRel(v.mem, r.mem, h, i, v.mem.Owner(v.mappings[e].handle), Some(value))
    ensures StInv(r, t, place, managed, {})
    ensures Component(r, e) == Some(value) && OthersUnchanged(v, r, e)
  {
    assert MappingOk(v, t, place, managed, e);
    ReplacedKeepsInv(v, r, t, place, managed, e, h, i, value);
    forall f | f in v.mappings && f != e ensures v.mappings[f].handle != v.mappings[e].handle {
      HandlesAreDistinct(v, t, place, managed, {}, e, f);
    }
  }

  /** The handle of a component is one that `direct_slot` takes, and its component is there. */
  lemma HandleIsDirect(v: StView, t: CompType, place: Alive, managed: Managed, e: Entity)
    requires StInv(v, t, place, managed, {}) && e in v.mappings
    ensures v.mem.HasSlot(v.mappings[e].handle) && v.mem.inds[v.mappings[e].handle].value.BlockOf?
    ensures v.mem.Deref(v.mappings[e].handle).Some?
  {
    assert MappingOk(v, t, place, managed, e) && OwnerOk(v, v.mappings[e].handle);
    var spot := SpotOf(v, place[e].phys, v.mappings[e].loc);
    assert SlotOk(v.mem, spot.heap, spot.index);
  }

  lemma DetachedOutcome(v: StView, r: StView, t: CompType, place: Alive, managed: Managed, e: Entity, h: HeapId, i: int)
    requires StInv(v, t, place, managed, {}) && e in v.mappings
    requires v.mem.Has(h, i) && v.mem.SlotAt(h, i) == v.mappings[e].handle && WriteRel(v.mem, r.mem, h, i, None, None)
    requires r == v.(mem := r.mem, mappings := v.mappings - {e})
    ensures StInv(r, t, place, managed, Reserved(v.mappings[e].loc)) && OthersUnchanged(v, r, e)
    ensures e in place && FreeSpot(r, place[e].phys, v.mappings[e].loc)
    ensures v.mappings[e].loc.Anonymous? ==>
      v.mappings[e].loc.block in v.lots && v.mappings[e].loc.slot in v.lots[v.mappings[e].loc.block].taken
  {
    assert MappingOk(v, t, place, managed, e);
    var spot := SpotOf(v, place[e].phys, v.mappings[e].loc);
    SlotsAreDistinct(v.mem, h, i, spot.heap, spot.index);
    DetachedKeepsInv(v, r, t, place, managed, e);
    forall f | f in v.mappings && f != e ensures v.mappings[f].handle != v.mappings[e].handle {
      HandlesAreDistinct(v, t, place, managed, {}, e, f);
    }
  }

  lemma EmptyListIsDropped(v: StView, t: CompType, place: Alive, managed: Managed, a: Ptr)
    requires StInv(v, t, place, managed, {}) && a in v.heaps && v.heaps[a] == []
    ensures StInv(v.(heaps := v.heaps - {a}), t, place, managed, {})
  {
    var w := v.(heaps := v.heaps - {a});
    forall e | e in v.mappings ensures MappingOk(w, t, place, managed, e) { assert MappingOk(v, t, place, managed, e); }
    forall s | w.mem.HasSlot(s) ensures OwnerOk(w, s) { assert OwnerOk(v, s); }
    forall h | h in w.mem.heaps ensures RoleOk(w, t, managed, h) { assert RoleOk(v, t, managed, h); }
    forall b | b in w.heaps ensures ListOk(w, b) { assert ListOk(v, b); }
    forall b | b in w.lots ensures LotOk(w, {}, b) { assert LotOk(v, {}, b); }
  }

  lemma RelocationOutcome(v: StView, r: StView, t: CompType, place: Alive, managed: Managed,
                          spare: set<(BlockId, int)>, e: Entity, info: Info, loc: Loc)
    requires CanRelocate(v, t, place, managed, spare, e, info, loc) && Relocated(v, r, place, e, info.phys, loc)
    ensures StInv(r, t, place[e := info], managed, spare - Reserved(loc) + Reserved(v.mappings[e].loc))
    ensures SameComponents(v, r)
    ensures FreeSpot(r, place[e].phys, v.mappings[e].loc) || (place[e].phys == info.phys && v.mappings[e].loc == loc)
  {
    RelocationKeepsInv(v, r, t, place, managed, spare, e, info, loc);
    var from, to := SpotOf(v, place[e].phys, v.mappings[e].loc), SpotOf(v, info.phys, loc);
    assert r.mem.SlotAt(from.heap, from.index) == v.mem.SlotAt(to.heap, to.index);
  }

  lemma ExternalSpotExists(v: StView, t: CompType, place: Alive, managed: Managed, a: Ptr, p: Pos)
    requires Settled(v, t, place, managed) && a in v.heaps && 0 <= p.heap < |v.heaps[a]| && InCap(p)
    ensures LocExists(v, a, External(p.heap, p.slot))
  {
    assert ListOk(v, a);
    assert RoleOk(v, t, managed, v.heaps[a][p.heap]);
  }
}
