/** The state of one component storage (`src/database.rs`, `DbStorageInner`) as a value, and what each
    step of inserting, removing and moving components does to it. */
module StorageViews {
  import opened Iters
  import opened Arena
  import opened Heaps
  import opened Masks
  import opened Blocks
  import opened Archetypes
  import opened Layout

  /** Where a component's slot was reserved: in an anonymous block, or at its entity's own position in
      the heaps of the entity's physical archetype. */
  datatype Loc = Anonymous(block: BlockId, slot: int) | External(heap: int, slot: int)

  datatype Mapping = Mapping(handle: SlotId, loc: Loc)

  /** What a heap is for. */
  datatype Role = OfArchetype(arch: Ptr, index: int) | OfBlock(block: BlockId)

  datatype StView = StView(
    mappings: map<Entity, Mapping>,
    heaps: map<Ptr, seq<HeapId>>,
    lots: map<BlockId, Lot>,
    roles: map<HeapId, Role>,
    mem: Mem)

  /** The component types each archetype manages. */
  type Managed = map<Ptr, set<CompType>>

  /** A heap and an index in it. */
  datatype Spot = Spot(heap: HeapId, index: int)

  ghost predicate LocExists(v: StView, phys: Ptr, loc: Loc) {
    match loc
    case Anonymous(b, i) => b in v.lots && v.mem.Has(v.lots[b].heap, i)
    case External(h, s) => phys in v.heaps && 0 <= h < |v.heaps[phys]| && v.mem.Has(v.heaps[phys][h], s)
  }

  ghost function SpotOf(v: StView, phys: Ptr, loc: Loc): Spot
    requires LocExists(v, phys, loc)
  {
    match loc
    case Anonymous(b, i) => Spot(v.lots[b].heap, i)
    case External(h, s) => Spot(v.heaps[phys][h], s)
  }

  ghost function HandleAt(v: StView, phys: Ptr, loc: Loc): SlotId
    requires LocExists(v, phys, loc)
  {
    v.mem.SlotAt(SpotOf(v, phys, loc).heap, SpotOf(v, phys, loc).index)
  }

  // === Invariant === //

  /** A component of type `t` is external, at exactly its entity's position, when its entity's physical
      archetype manages `t`; otherwise it holds a reservation in an anonymous block. */
  ghost predicate LocFits(v: StView, t: CompType, managed: Managed, info: Info, loc: Loc) {
    && info.phys in managed
    && match loc
       case Anonymous(b, i) => t !in managed[info.phys] && b in v.lots && i in v.lots[b].taken
       case External(h, s) => t in managed[info.phys] && info.Place() == Pos(h, s)
  }

  ghost predicate MappingOk(v: StView, t: CompType, place: Alive, managed: Managed, e: Entity)
    requires e in v.mappings
  {
    var m := v.mappings[e];
    && e in place
    && LocFits(v, t, managed, place[e], m.loc)
    && LocExists(v, place[e].phys, m.loc)
    && HandleAt(v, place[e].phys, m.loc) == m.handle
    && v.mem.HasSlot(m.handle) && v.mem.Owner(m.handle) == Some(e)
  }

  /** Owners are the inverse of the mappings, and a slot has a value exactly when it has an owner. */
  ghost predicate OwnerOk(v: StView, s: SlotId)
    requires v.mem.HasSlot(s)
  {
    match v.mem.Owner(s)
    case None => v.mem.Deref(s) == None
    case Some(e) => v.mem.Deref(s).Some? && e in v.mappings && v.mappings[e].handle == s
  }

  /** Every heap is in use for exactly one thing; heap `i` of an archetype matches its entity heap `i`. */
  ghost predicate RoleOk(v: StView, t: CompType, managed: Managed, h: HeapId)
    requires h in v.mem.heaps && h in v.roles
  {
    match v.roles[h]
    case OfArchetype(a, i) =>
      && a in v.heaps && 0 <= i < |v.heaps[a]| && v.heaps[a][i] == h
      && a in managed && t in managed[a]
      && |v.mem.heaps[h].slots| == HeapCap(i)
    case OfBlock(b) => b in v.lots && v.lots[b].heap == h && |v.mem.heaps[h].slots| == BITS
  }

  ghost predicate ListOk(v: StView, a: Ptr)
    requires a in v.heaps
  {
    forall i :: 0 <= i < |v.heaps[a]| ==>
      v.heaps[a][i] in v.roles && v.roles[v.heaps[a][i]] == OfArchetype(a, i)
  }

  /** The reserved slots of a block are those with owners, plus the spare ones. */
  ghost predicate LotOk(v: StView, spare: set<(BlockId, int)>, b: BlockId)
    requires b in v.lots
  {
    var h := v.lots[b].heap;
    && h in v.roles && v.roles[h] == OfBlock(b)
    && (forall i :: i in v.lots[b].taken ==> 0 <= i < BITS)
    && forall i {:trigger v.mem.SlotAt(h, i)} :: v.mem.Has(h, i) && v.mem.HasSlot(v.mem.SlotAt(h, i)) ==>
         (i in v.lots[b].taken <==> v.mem.Owner(v.mem.SlotAt(h, i)).Some? || (b, i) in spare)
  }

  ghost predicate StInv(v: StView, t: CompType, place: Alive, managed: Managed, spare: set<(BlockId, int)>) {
    && MemInv(v.mem)
    && v.roles.Keys == v.mem.heaps.Keys
    && (forall e {:trigger MappingOk(v, t, place, managed, e)} :: e in v.mappings ==>
         MappingOk(v, t, place, managed, e))
    && (forall s {:trigger OwnerOk(v, s)} :: v.mem.HasSlot(s) ==> OwnerOk(v, s))
    && (forall h {:trigger RoleOk(v, t, managed, h)} :: h in v.mem.heaps ==> RoleOk(v, t, managed, h))
    && (forall a {:trigger ListOk(v, a)} :: a in v.heaps ==> ListOk(v, a))
    && (forall b {:trigger LotOk(v, spare, b)} :: b in v.lots ==> LotOk(v, spare, b))
  }

  /** The same handles for the same entities, reading the same values, owned by the same entities. */
  ghost predicate SameComponents(v: StView, r: StView) {
    && v.mappings.Keys == r.mappings.Keys
    && (forall e :: e in v.mappings ==> r.mappings[e].handle == v.mappings[e].handle)
    && (forall s :: v.mem.HasSlot(s) ==>
          r.mem.HasSlot(s) && r.mem.Owner(s) == v.mem.Owner(s) && r.mem.Deref(s) == v.mem.Deref(s))
  }

  // === Finding the owner of a spot === //

  /** Different locations of different placements are different spots. */
  lemma SpotsAreDistinct(v: StView, t: CompType, place: Alive, managed: Managed, spare: set<(BlockId, int)>,
                         phys1: Ptr, loc1: Loc, phys2: Ptr, loc2: Loc)
    requires StInv(v, t, place, managed, spare)
    requires LocExists(v, phys1, loc1) && LocExists(v, phys2, loc2)
    requires SpotOf(v, phys1, loc1) == SpotOf(v, phys2, loc2)
    ensures loc1 == loc2 && (loc1.External? ==> phys1 == phys2)
  {
    LocRole(v, t, place, managed, spare, phys1, loc1);
    LocRole(v, t, place, managed, spare, phys2, loc2);
  }

  lemma LocRole(v: StView, t: CompType, place: Alive, managed: Managed, spare: set<(BlockId, int)>, phys: Ptr, loc: Loc)
    requires StInv(v, t, place, managed, spare) && LocExists(v, phys, loc)
    ensures SpotOf(v, phys, loc).heap in v.roles
    ensures v.roles[SpotOf(v, phys, loc).heap] ==
      match loc case Anonymous(b, _) => OfBlock(b) case External(h, _) => OfArchetype(phys, h)
  {
    match loc
    case Anonymous(b, i) => assert LotOk(v, spare, b);
    case External(h, s) => assert ListOk(v, phys);
  }

  /** A slot that some mapping names is where that mapping says. */
  lemma OwnedSpot(v: StView, t: CompType, place: Alive, managed: Managed, spare: set<(BlockId, int)>,
                  phys: Ptr, loc: Loc, f: Entity)
    requires StInv(v, t, place, managed, spare) && LocExists(v, phys, loc)
    requires v.mem.HasSlot(HandleAt(v, phys, loc)) && v.mem.Owner(HandleAt(v, phys, loc)) == Some(f)
    ensures f in v.mappings && f in place && v.mappings[f].loc == loc
    ensures loc.External? ==> place[f].phys == phys && place[f].Place() == Pos(loc.heap, loc.slot)
  {
    assert OwnerOk(v, HandleAt(v, phys, loc));
    assert MappingOk(v, t, place, managed, f);
    var s1, s2 := SpotOf(v, phys, loc), SpotOf(v, place[f].phys, v.mappings[f].loc);
    SlotsAreDistinct(v.mem, s1.heap, s1.index, s2.heap, s2.index);
    SpotsAreDistinct(v, t, place, managed, spare, phys, loc, place[f].phys, v.mappings[f].loc);
  }

  /** An external spot no entity is placed at has no owner. */
  lemma UnplacedSpotIsFree(v: StView, t: CompType, place: Alive, managed: Managed, spare: set<(BlockId, int)>,
                           phys: Ptr, p: Pos)
    requires StInv(v, t, place, managed, spare) && LocExists(v, phys, External(p.heap, p.slot))
    requires forall f :: f in place && f in v.mappings ==> !(place[f].phys == phys && place[f].Place() == p)
    ensures v.mem.HasSlot(HandleAt(v, phys, External(p.heap, p.slot)))
    ensures v.mem.Owner(HandleAt(v, phys, External(p.heap, p.slot))) == None
  {
    var loc := External(p.heap, p.slot);
    assert SlotOk(v.mem, SpotOf(v, phys, loc).heap, SpotOf(v, phys, loc).index);
    if v.mem.Owner(HandleAt(v, phys, loc)).Some? {
      OwnedSpot(v, t, place, managed, spare, phys, loc, v.mem.Owner(HandleAt(v, phys, loc)).value);
    }
  }

  /** A spare slot has no owner. */
  ghost predicate FreeSpot(v: StView, phys: Ptr, loc: Loc) {
    && LocExists(v, phys, loc)
    && v.mem.HasSlot(HandleAt(v, phys, loc)) && v.mem.Owner(HandleAt(v, phys, loc)) == None
  }

  /** The reservation a location stands for, if it is an anonymous one. */
  ghost function Reserved(loc: Loc): set<(BlockId, int)> {
    match loc
    case Anonymous(b, i) => {(b, i)}
    case External(_, _) => {}
  }

  // === Moving a component to a free spot === //

  /** Entity `e` is about to be laid out as in `info`, with its component at the free spot `loc`. */
  ghost predicate CanRelocate(v: StView, t: CompType, place: Alive, managed: Managed, spare: set<(BlockId, int)>,
                              e: Entity, info: Info, loc: Loc)
  {
    && StInv(v, t, place, managed, spare)
    && e in v.mappings && e in place && LocExists(v, place[e].phys, v.mappings[e].loc)
    && LocFits(v, t, managed, info, loc) && FreeSpot(v, info.phys, loc)
  }

  /** Its slot was swapped there. */
  ghost predicate Relocated(v: StView, r: StView, place: Alive, e: Entity, phys: Ptr, loc: Loc)
    requires e in v.mappings && e in place && LocExists(v, place[e].phys, v.mappings[e].loc) && LocExists(v, phys, loc)
  {
    var from, to := SpotOf(v, place[e].phys, v.mappings[e].loc), SpotOf(v, phys, loc);
    && SwapRel(v.mem, r.mem, from.heap, from.index, to.heap, to.index)
    && r.mappings == v.mappings[e := Mapping(v.mappings[e].handle, loc)]
    && r.heaps == v.heaps && r.lots == v.lots && r.roles == v.roles
  }

  lemma RelocationKeepsMapping(v: StView, r: StView, t: CompType, place: Alive, managed: Managed,
                               spare: set<(BlockId, int)>, e: Entity, info: Info, loc: Loc, f: Entity)
    requires CanRelocate(v, t, place, managed, spare, e, info, loc) && Relocated(v, r, place, e, info.phys, loc)
    requires f in v.mappings
    ensures MappingOk(r, t, place[e := info], managed, f)
  {
    assert MappingOk(v, t, place, managed, e) && MappingOk(v, t, place, managed, f);
    var m := r.mappings[f].loc;
    var phys := if f == e then info.phys else place[f].phys;
    var spot := SpotOf(v, phys, m);
    assert r.mem.SlotAt(spot.heap, spot.index) == v.mappings[f].handle;
  }

  lemma RelocationKeepsLot(v: StView, r: StView, t: CompType, place: Alive, managed: Managed,
                           spare: set<(BlockId, int)>, e: Entity, info: Info, loc: Loc, b: BlockId)
    requires CanRelocate(v, t, place, managed, spare, e, info, loc) && Relocated(v, r, place, e, info.phys, loc)
    requires b in v.lots
    ensures LotOk(r, spare - Reserved(loc) + Reserved(v.mappings[e].loc), b)
  {
    assert MappingOk(v, t, place, managed, e) && LotOk(v, spare, b);
    LocRole(v, t, place, managed, spare, place[e].phys, v.mappings[e].loc);
    LocRole(v, t, place, managed, spare, info.phys, loc);
    var h := v.lots[b].heap;
    forall i | r.mem.Has(h, i) ensures v.mem.Has(h, i) && v.mem.HasSlot(v.mem.SlotAt(h, i)) {
      assert SlotOk(v.mem, h, i);
    }
  }

  lemma RelocationKeepsRest(v: StView, r: StView, t: CompType, place: Alive, managed: Managed,
                            spare: set<(BlockId, int)>, e: Entity, info: Info, loc: Loc)
    requires CanRelocate(v, t, place, managed, spare, e, info, loc) && Relocated(v, r, place, e, info.phys, loc)
    ensures forall s {:trigger OwnerOk(r, s)} :: r.mem.HasSlot(s) ==> OwnerOk(r, s)
    ensures forall h {:trigger RoleOk(r, t, managed, h)} :: h in r.mem.heaps ==>
      h in r.roles && RoleOk(r, t, managed, h)
    ensures forall a {:trigger ListOk(r, a)} :: a in r.heaps ==> ListOk(r, a)
    ensures SameComponents(v, r)
  {
    forall s | r.mem.HasSlot(s) ensures OwnerOk(r, s) { assert OwnerOk(v, s); }
    forall h | h in r.mem.heaps ensures h in r.roles && RoleOk(r, t, managed, h) { assert RoleOk(v, t, managed, h); }
    forall a | a in r.heaps ensures ListOk(r, a) { assert ListOk(v, a); }
  }

  lemma RelocationKeepsMappings(v: StView, r: StView, t: CompType, place: Alive, managed: Managed,
                                spare: set<(BlockId, int)>, e: Entity, info: Info, loc: Loc)
    requires CanRelocate(v, t, place, managed, spare, e, info, loc) && Relocated(v, r, place, e, info.phys, loc)
    ensures forall f {:trigger MappingOk(r, t, place[e := info], managed, f)} ::
      f in r.mappings ==> MappingOk(r, t, place[e := info], managed, f)
  {
    forall f | f in r.mappings ensures MappingOk(r, t, place[e := info], managed, f) {
      RelocationKeepsMapping(v, r, t, place, managed, spare, e, info, loc, f);
    }
  }

  lemma RelocationKeepsLots(v: StView, r: StView, t: CompType, place: Alive, managed: Managed,
                            spare: set<(BlockId, int)>, e: Entity, info: Info, loc: Loc)
    requires CanRelocate(v, t, place, managed, spare, e, info, loc) && Relocated(v, r, place, e, info.phys, loc)
    ensures forall b {:trigger LotOk(r, spare - Reserved(loc) + Reserved(v.mappings[e].loc), b)} ::
      b in r.lots ==> LotOk(r, spare - Reserved(loc) + Reserved(v.mappings[e].loc), b)
  {
    forall b | b in r.lots ensures LotOk(r, spare - Reserved(loc) + Reserved(v.mappings[e].loc), b) {
      RelocationKeepsLot(v, r, t, place, managed, spare, e, info, loc, b);
    }
  }

  /** The heart of every move: swapping a component into a free spot keeps the storage invariant for the
      new placement, and no handle notices. */
  lemma RelocationKeepsInv(v: StView, r: StView, t: CompType, place: Alive, managed: Managed,
                           spare: set<(BlockId, int)>, e: Entity, info: Info, loc: Loc)
    requires CanRelocate(v, t, place, managed, spare, e, info, loc) && Relocated(v, r, place, e, info.phys, loc)
    ensures StInv(r, t, place[e := info], managed, spare - Reserved(loc) + Reserved(v.mappings[e].loc))
    ensures SameComponents(v, r)
  {
    RelocationKeepsMappings(v, r, t, place, managed, spare, e, info, loc);
    RelocationKeepsRest(v, r, t, place, managed, spare, e, info, loc);
    RelocationKeepsLots(v, r, t, place, managed, spare, e, info, loc);
  }

  // === The other steps === //

  ghost function ListOf(v: StView, a: Ptr): seq<HeapId> {
    if a in v.heaps then v.heaps[a] else []
  }

  /** A new heap was appended to the list of archetype `a`. */
  ghost predicate HeapAdded(v: StView, r: StView, a: Ptr, h: HeapId) {
    && MemInv(r.mem) && Created(v.mem, r.mem, h, HeapCap(|ListOf(v, a)|))
    && r.heaps == v.heaps[a := ListOf(v, a) + [h]]
    && r.roles == v.roles[h := OfArchetype(a, |ListOf(v, a)|)]
    && r.mappings == v.mappings && r.lots == v.lots
  }

  lemma CreatedKeepsMappings(v: StView, r: StView, t: CompType, place: Alive, managed: Managed,
                             spare: set<(BlockId, int)>, h: HeapId, len: int)
    requires StInv(v, t, place, managed, spare) && MemInv(r.mem) && Created(v.mem, r.mem, h, len)
    requires r.mappings == v.mappings
    requires forall a :: a in v.heaps ==> a in r.heaps && v.heaps[a] <= r.heaps[a]
    requires forall b :: b in v.lots ==>
      b in r.lots && r.lots[b].heap == v.lots[b].heap && v.lots[b].taken <= r.lots[b].taken
    ensures forall e {:trigger MappingOk(r, t, place, managed, e)} :: e in r.mappings ==>
      MappingOk(r, t, place, managed, e)
    ensures forall s {:trigger OwnerOk(r, s)} :: r.mem.HasSlot(s) ==> OwnerOk(r, s)
    ensures SameComponents(v, r)
  {
    forall s | v.mem.HasSlot(s)
      ensures r.mem.HasSlot(s) && r.mem.Owner(s) == v.mem.Owner(s) && r.mem.Deref(s) == v.mem.Deref(s)
    {
      CreatedKeepsHandles(v.mem, r.mem, h, len, s);
    }
    forall e | e in r.mappings ensures MappingOk(r, t, place, managed, e) {
      assert MappingOk(v, t, place, managed, e);
    }
    forall s | r.mem.HasSlot(s) ensures OwnerOk(r, s) {
      if v.mem.HasSlot(s) {
        assert OwnerOk(v, s);
      } else {
        NewSlotsAreEmpty(v.mem, r.mem, h, len, s);
      }
    }
  }

  lemma NewSlotsAreEmpty(m: Mem, r: Mem, h: HeapId, len: int, s: SlotId)
    requires MemInv(m) && MemInv(r) && Created(m, r, h, len) && r.HasSlot(s) && !m.HasSlot(s)
    ensures r.Owner(s) == None && r.Deref(s) == None
  {
    assert IndOk(r, s);
    if r.inds[s].value.BlockOf? {
      var g, i := r.inds[s].value.heap, r.Lane(s);
      DerefAt(r, g, i);
      assert g == h;
      assert r.heaps[h].values[i] in r.heaps[h].values;
    }
  }

  lemma HeapAddedKeepsInv(v: StView, r: StView, t: CompType, place: Alive, managed: Managed,
                          spare: set<(BlockId, int)>, a: Ptr, h: HeapId)
    requires StInv(v, t, place, managed, spare) && a in managed && t in managed[a] && HeapAdded(v, r, a, h)
    ensures StInv(r, t, place, managed, spare) && SameComponents(v, r)
  {
    CreatedKeepsMappings(v, r, t, place, managed, spare, h, HeapCap(|ListOf(v, a)|));
    forall g | g in r.mem.heaps ensures RoleOk(r, t, managed, g) {
      if g != h { assert RoleOk(v, t, managed, g); }
    }
    forall b | b in r.heaps ensures ListOk(r, b) {
      if b in v.heaps { assert ListOk(v, b); }
    }
    forall b | b in r.lots ensures LotOk(r, spare, b) { CreatedKeepsLot(v, r, spare, b, h, HeapCap(|ListOf(v, a)|)); }
  }

  lemma CreatedKeepsLot(v: StView, r: StView, spare: set<(BlockId, int)>, b: BlockId, h: HeapId, len: int)
    requires MemInv(v.mem) && MemInv(r.mem) && Created(v.mem, r.mem, h, len)
    requires v.roles.Keys == v.mem.heaps.Keys
    requires b in v.lots && b in r.lots && r.lots[b] == v.lots[b] && LotOk(v, spare, b)
    requires forall g :: g in v.roles ==> g in r.roles && r.roles[g] == v.roles[g]
    ensures LotOk(r, spare, b)
  {
    var g := v.lots[b].heap;
    assert g in v.mem.heaps && r.mem.heaps[g] == v.mem.heaps[g];
    forall i | r.mem.Has(g, i) ensures v.mem.HasSlot(v.mem.SlotAt(g, i)) { assert SlotOk(v.mem, g, i); }
  }

  /** A slot of an anonymous block was reserved, in a new block if need be. */
  ghost predicate SlotReserved(v: StView, r: StView, b: BlockId, i: int) {
    && MemInv(r.mem) && 0 <= i < BITS && b in r.lots
    && r.mappings == v.mappings && r.heaps == v.heaps
    && if b in v.lots then
         && i !in v.lots[b].taken && r.mem == v.mem && r.roles == v.roles
         && r.lots == v.lots[b := Lot(v.lots[b].heap, v.lots[b].taken + {i})]
       else
         && Created(v.mem, r.mem, r.lots[b].heap, BITS) && r.roles == v.roles[r.lots[b].heap := OfBlock(b)]
         && r.lots == v.lots[b := Lot(r.lots[b].heap, {i})]
  }

  lemma SlotReservedKeepsInv(v: StView, r: StView, t: CompType, place: Alive, managed: Managed, b: BlockId, i: int)
    requires StInv(v, t, place, managed, {}) && SlotReserved(v, r, b, i)
    ensures StInv(r, t, place, managed, {(b, i)}) && SameComponents(v, r)
    ensures forall phys :: FreeSpot(r, phys, Anonymous(b, i))
  {
    if b in v.lots {
      ReservedInOldBlock(v, r, t, place, managed, b, i);
    } else {
      ReservedInNewBlock(v, r, t, place, managed, b, i);
    }
  }

  lemma ReservedInOldBlock(v: StView, r: StView, t: CompType, place: Alive, managed: Managed, b: BlockId, i: int)
    requires StInv(v, t, place, managed, {}) && SlotReserved(v, r, b, i) && b in v.lots
    ensures StInv(r, t, place, managed, {(b, i)})
    ensures forall phys :: FreeSpot(r, phys, Anonymous(b, i))
  {
    var h := r.lots[b].heap;
    assert LotOk(v, {}, b) && RoleOk(v, t, managed, h) && SlotOk(v.mem, h, i);
    forall e | e in r.mappings ensures MappingOk(r, t, place, managed, e) { assert MappingOk(v, t, place, managed, e); }
    forall s | r.mem.HasSlot(s) ensures OwnerOk(r, s) { assert OwnerOk(v, s); }
    forall g | g in r.mem.heaps ensures RoleOk(r, t, managed, g) { assert RoleOk(v, t, managed, g); }
    forall c | c in r.lots ensures LotOk(r, {(b, i)}, c) { assert LotOk(v, {}, c); }
    forall a | a in r.heaps ensures ListOk(r, a) { assert ListOk(v, a); }
  }

  lemma ReservedInNewBlock(v: StView, r: StView, t: CompType, place: Alive, managed: Managed, b: BlockId, i: int)
    requires StInv(v, t, place, managed, {}) && SlotReserved(v, r, b, i) && b !in v.lots
    ensures StInv(r, t, place, managed, {(b, i)}) && SameComponents(v, r)
    ensures forall phys :: FreeSpot(r, phys, Anonymous(b, i))
  {
    var h := r.lots[b].heap;
    CreatedKeepsMappings(v, r, t, place, managed, {}, h, BITS);
    forall g | g in r.mem.heaps ensures RoleOk(r, t, managed, g) {
      if g != h { assert RoleOk(v, t, managed, g); }
    }
    forall c | c in r.lots ensures LotOk(r, {(b, i)}, c) {
      if c != b {
        CreatedKeepsLot(v, r, {}, c, h, BITS);
        assert LotOk(r, {}, c);
      } else {
        forall k | r.mem.Has(h, k)
          ensures r.mem.HasSlot(r.mem.SlotAt(h, k)) && r.mem.Owner(r.mem.SlotAt(h, k)) == None
        {
        }
      }
    }
    assert r.mem.HasSlot(r.mem.SlotAt(h, i));
    forall a | a in r.heaps ensures ListOk(r, a) { assert ListOk(v, a); }
  }

  /** A spare slot of an anonymous block was released; an emptied block may have been destroyed. */
  ghost predicate SlotReleased(v: StView, r: StView, b: BlockId, i: int, destroyed: bool) {
    && MemInv(r.mem) && b in v.lots && i in v.lots[b].taken
    && r.mappings == v.mappings && r.heaps == v.heaps
    && if destroyed then
         && v.lots[b].taken == {i} && r.lots == v.lots - {b}
         && Dropped(v.mem, r.mem, v.lots[b].heap) && r.roles == v.roles - {v.lots[b].heap}
       else
         && r.lots == v.lots[b := Lot(v.lots[b].heap, v.lots[b].taken - {i})]
         && r.mem == v.mem && r.roles == v.roles
  }

  /** Dropping a heap none of whose slots has an owner. */
  lemma DroppedKeepsMappings(v: StView, r: StView, t: CompType, place: Alive, managed: Managed,
                             spare: set<(BlockId, int)>, h: HeapId)
    requires StInv(v, t, place, managed, spare) && MemInv(r.mem) && Dropped(v.mem, r.mem, h)
    requires forall i {:trigger v.mem.SlotAt(h, i)} :: v.mem.Has(h, i) && v.mem.HasSlot(v.mem.SlotAt(h, i)) ==>
      v.mem.Owner(v.mem.SlotAt(h, i)) == None
    requires r.mappings == v.mappings
    requires forall e :: e in v.mappings && e in place && LocExists(v, place[e].phys, v.mappings[e].loc) ==>
      SpotOf(v, place[e].phys, v.mappings[e].loc).heap != h ==>
        && LocExists(r, place[e].phys, v.mappings[e].loc)
        && SpotOf(r, place[e].phys, v.mappings[e].loc) == SpotOf(v, place[e].phys, v.mappings[e].loc)
        && (v.mappings[e].loc.Anonymous? ==> r.lots[v.mappings[e].loc.block] == v.lots[v.mappings[e].loc.block])
    ensures forall e {:trigger MappingOk(r, t, place, managed, e)} :: e in r.mappings ==>
      MappingOk(r, t, place, managed, e)
    ensures forall s {:trigger OwnerOk(r, s)} :: r.mem.HasSlot(s) ==> OwnerOk(r, s)
    ensures SameComponents(v, r)
  {
    forall s | v.mem.HasSlot(s)
      ensures r.mem.HasSlot(s) && r.mem.Owner(s) == v.mem.Owner(s) && r.mem.Deref(s) == v.mem.Deref(s)
    {
      DroppedKeepsHandle(v, r, h, s);
    }
    forall e | e in r.mappings ensures MappingOk(r, t, place, managed, e) {
      assert MappingOk(v, t, place, managed, e);
      var spot := SpotOf(v, place[e].phys, v.mappings[e].loc);
      assert v.mem.SlotAt(spot.heap, spot.index) == v.mappings[e].handle;
    }
    forall s | r.mem.HasSlot(s) ensures OwnerOk(r, s) { assert OwnerOk(v, s); }
  }

  lemma DroppedKeepsHandle(v: StView, r: StView, h: HeapId, s: SlotId)
    requires MemInv(v.mem) && MemInv(r.mem) && Dropped(v.mem, r.mem, h) && v.mem.HasSlot(s) && OwnerOk(v, s)
    requires forall i {:trigger v.mem.SlotAt(h, i)} :: v.mem.Has(h, i) && v.mem.HasSlot(v.mem.SlotAt(h, i)) ==>
      v.mem.Owner(v.mem.SlotAt(h, i)) == None
    ensures r.mem.HasSlot(s) && r.mem.Owner(s) == v.mem.Owner(s) && r.mem.Deref(s) == v.mem.Deref(s)
  {
    assert IndOk(v.mem, s);
    if v.mem.inds[s].value.BlockOf? && v.mem.inds[s].value.heap == h {
      assert v.mem.SlotAt(h, v.mem.Lane(s)) == s;
    } else {
      DroppedKeepsHandles(v.mem, r.mem, h, s);
    }
  }

  lemma SlotReleasedKeepsInv(v: StView, r: StView, t: CompType, place: Alive, managed: Managed,
                             b: BlockId, i: int, destroyed: bool)
    requires StInv(v, t, place, managed, {(b, i)}) && SlotReleased(v, r, b, i, destroyed)
    requires FreeSpot(v, 0, Anonymous(b, i))
    ensures StInv(r, t, place, managed, {}) && SameComponents(v, r)
  {
    if destroyed {
      BlockDestroyedKeepsInv(v, r, t, place, managed, b, i);
    } else {
      forall e | e in r.mappings ensures MappingOk(r, t, place, managed, e) {
        assert MappingOk(v, t, place, managed, e);
      }
      forall s | r.mem.HasSlot(s) ensures OwnerOk(r, s) { assert OwnerOk(v, s); }
      forall g | g in r.mem.heaps ensures RoleOk(r, t, managed, g) { assert RoleOk(v, t, managed, g); }
      forall c | c in r.lots ensures LotOk(r, {}, c) { assert LotOk(v, {(b, i)}, c); }
      forall a | a in r.heaps ensures ListOk(r, a) { assert ListOk(v, a); }
    }
  }

  /** The last reservation of a block was released, and the block destroyed. */
  lemma BlockDestroyedKeepsInv(v: StView, r: StView, t: CompType, place: Alive, managed: Managed, b: BlockId, i: int)
    requires StInv(v, t, place, managed, {(b, i)}) && SlotReleased(v, r, b, i, true)
    requires FreeSpot(v, 0, Anonymous(b, i))
    ensures StInv(r, t, place, managed, {}) && SameComponents(v, r)
  {
    var h := v.lots[b].heap;
    assert LotOk(v, {(b, i)}, b) && SlotOk(v.mem, h, i);
    forall k | v.mem.Has(h, k) && v.mem.HasSlot(v.mem.SlotAt(h, k)) ensures v.mem.Owner(v.mem.SlotAt(h, k)) == None {
      assert k in v.lots[b].taken ==> k == i;
    }
    forall e | e in v.mappings && e in place && LocExists(v, place[e].phys, v.mappings[e].loc)
      && SpotOf(v, place[e].phys, v.mappings[e].loc).heap != h
      ensures LocExists(r, place[e].phys, v.mappings[e].loc)
      ensures SpotOf(r, place[e].phys, v.mappings[e].loc) == SpotOf(v, place[e].phys, v.mappings[e].loc)
      ensures v.mappings[e].loc.Anonymous? ==> r.lots[v.mappings[e].loc.block] == v.lots[v.mappings[e].loc.block]
    {
    }
    DroppedKeepsMappings(v, r, t, place, managed, {(b, i)}, h);
    ReleasedKeepsRest(v, r, t, managed, place, b, i);
  }

  lemma ReleasedKeepsRest(v: StView, r: StView, t: CompType, managed: Managed, place: Alive, b: BlockId, i: int)
    requires StInv(v, t, place, managed, {(b, i)}) && SlotReleased(v, r, b, i, true)
    ensures r.roles.Keys == r.mem.heaps.Keys
    ensures forall h {:trigger RoleOk(r, t, managed, h)} :: h in r.mem.heaps ==>
      h in r.roles && RoleOk(r, t, managed, h)
    ensures forall a {:trigger ListOk(r, a)} :: a in r.heaps ==> ListOk(r, a)
    ensures forall c {:trigger LotOk(r, {}, c)} :: c in r.lots ==> LotOk(r, {}, c)
  {
    var h := v.lots[b].heap;
    assert LotOk(v, {(b, i)}, b);
    forall g | g in r.mem.heaps ensures g in r.roles && RoleOk(r, t, managed, g) { assert RoleOk(v, t, managed, g); }
    forall a | a in r.heaps ensures ListOk(r, a) { assert ListOk(v, a); }
    forall c | c in r.lots ensures LotOk(r, {}, c) {
      assert LotOk(v, {(b, i)}, c);
      var g := v.lots[c].heap;
      forall k | r.mem.Has(g, k) ensures v.mem.Has(g, k) && v.mem.HasSlot(v.mem.SlotAt(g, k))
        && r.mem.Owner(v.mem.SlotAt(g, k)) == v.mem.Owner(v.mem.SlotAt(g, k))
      {
        assert SlotOk(v.mem, g, k);
      }
    }
  }

  /** The last heap of an archetype's list was dropped. */
  ghost predicate LastHeapDropped(v: StView, r: StView, a: Ptr) {
    && MemInv(r.mem) && a in v.heaps && |v.heaps[a]| > 0
    && var n := |v.heaps[a]| - 1;
       && r.heaps == v.heaps[a := v.heaps[a][..n]]
       && Dropped(v.mem, r.mem, v.heaps[a][n]) && r.roles == v.roles - {v.heaps[a][n]}
       && r.mappings == v.mappings && r.lots == v.lots
  }

  lemma LastHeapDroppedKeepsInv(v: StView, r: StView, t: CompType, place: Alive, managed: Managed, a: Ptr)
    requires StInv(v, t, place, managed, {}) && LastHeapDropped(v, r, a)
    requires forall e :: e in place && place[e].phys == a ==> place[e].heapIndex < |v.heaps[a]| - 1
    ensures StInv(r, t, place, managed, {}) && SameComponents(v, r)
  {
    var n := |v.heaps[a]| - 1;
    var h := v.heaps[a][n];
    assert ListOk(v, a) && RoleOk(v, t, managed, h);
    forall i | v.mem.Has(h, i) && v.mem.HasSlot(v.mem.SlotAt(h, i)) ensures v.mem.Owner(v.mem.SlotAt(h, i)) == None {
      UnplacedSpotIsFree(v, t, place, managed, {}, a, Pos(n, i));
    }
    forall e | e in v.mappings && e in place && LocExists(v, place[e].phys, v.mappings[e].loc)
      && SpotOf(v, place[e].phys, v.mappings[e].loc).heap != h
      ensures LocExists(r, place[e].phys, v.mappings[e].loc)
      ensures SpotOf(r, place[e].phys, v.mappings[e].loc) == SpotOf(v, place[e].phys, v.mappings[e].loc)
    {
    }
    DroppedKeepsMappings(v, r, t, place, managed, {}, h);
    LastHeapDroppedKeepsRest(v, r, t, place, managed, a);
  }

  lemma LastHeapDroppedKeepsRest(v: StView, r: StView, t: CompType, place: Alive, managed: Managed, a: Ptr)
    requires StInv(v, t, place, managed, {}) && LastHeapDropped(v, r, a)
    ensures r.roles.Keys == r.mem.heaps.Keys
    ensures forall h {:trigger RoleOk(r, t, managed, h)} :: h in r.mem.heaps ==>
      h in r.roles && RoleOk(r, t, managed, h)
    ensures forall b {:trigger ListOk(r, b)} :: b in r.heaps ==> ListOk(r, b)
    ensures forall c {:trigger LotOk(r, {}, c)} :: c in r.lots ==> LotOk(r, {}, c)
  {
    var n := |v.heaps[a]| - 1;
    assert ListOk(v, a);
    forall g | g in r.mem.heaps ensures g in r.roles && RoleOk(r, t, managed, g) { assert RoleOk(v, t, managed, g); }
    forall b | b in r.heaps ensures ListOk(r, b) { assert ListOk(v, b); }
    forall c | c in r.lots ensures LotOk(r, {}, c) {
      assert LotOk(v, {}, c);
      var g := v.lots[c].heap;
      forall k | r.mem.Has(g, k) ensures v.mem.Has(g, k) && v.mem.HasSlot(v.mem.SlotAt(g, k))
        && r.mem.Owner(v.mem.SlotAt(g, k)) == v.mem.Owner(v.mem.SlotAt(g, k))
      {
        assert SlotOk(v.mem, g, k);
      }
    }
  }

  // === Attaching and detaching components === //

  lemma AttachedKeepsInv(v: StView, r: StView, t: CompType, place: Alive, managed: Managed, e: Entity, loc: Loc,
                         value: Value)
    requires e in place && e !in v.mappings && StInv(v, t, place, managed, Reserved(loc))
    requires LocFits(v, t, managed, place[e], loc) && FreeSpot(v, place[e].phys, loc)
    requires var spot := SpotOf(v, place[e].phys, loc);
             WriteRel(v.mem, r.mem, spot.heap, spot.index, Some(e), Some(value))
    requires r == v.(mem := r.mem, mappings := v.mappings[e := Mapping(HandleAt(v, place[e].phys, loc), loc)])
    ensures StInv(r, t, place, managed, {})
  {
    var handle, spot := HandleAt(v, place[e].phys, loc), SpotOf(v, place[e].phys, loc);
    LocRole(v, t, place, managed, Reserved(loc), place[e].phys, loc);
    forall f | f in r.mappings ensures MappingOk(r, t, place, managed, f) {
      if f != e { assert MappingOk(v, t, place, managed, f); }
    }
    forall s | r.mem.HasSlot(s) ensures OwnerOk(r, s) { assert OwnerOk(v, s); }
    forall h | h in r.mem.heaps ensures RoleOk(r, t, managed, h) { assert RoleOk(v, t, managed, h); }
    forall a | a in r.heaps ensures ListOk(r, a) { assert ListOk(v, a); }
    forall b | b in r.lots ensures LotOk(r, {}, b) {
      assert LotOk(v, Reserved(loc), b);
      WriteKeepsLot(v, r, Reserved(loc), b, spot, {});
    }
  }

  /** Writing an owner into a spare slot, or taking the owner out of a reserved one. */
  lemma WriteKeepsLot(v: StView, r: StView, spare: set<(BlockId, int)>, b: BlockId, spot: Spot,
                      spare': set<(BlockId, int)>)
    requires MemInv(v.mem) && b in v.lots && LotOk(v, spare, b) && r.lots == v.lots && r.roles == v.roles
    requires v.mem.Has(spot.heap, spot.index)
    requires exists o, x :: WriteRel(v.mem, r.mem, spot.heap, spot.index, o, x)
    requires forall i :: (b, i) in spare' <==>
      if v.lots[b].heap == spot.heap && i == spot.index then
        i in v.lots[b].taken && r.mem.HasSlot(v.mem.SlotAt(spot.heap, i))
          && r.mem.Owner(v.mem.SlotAt(spot.heap, i)) == None
      else (b, i) in spare
    requires v.lots[b].heap == spot.heap ==> spot.index in v.lots[b].taken
    ensures LotOk(r, spare', b)
  {
    var h := v.lots[b].heap;
    var o, x :| WriteRel(v.mem, r.mem, spot.heap, spot.index, o, x);
    forall i | r.mem.Has(h, i) && r.mem.HasSlot(r.mem.SlotAt(h, i))
      ensures i in v.lots[b].taken <==> r.mem.Owner(r.mem.SlotAt(h, i)).Some? || (b, i) in spare'
    {
      assert v.mem.Has(h, i) && SlotOk(v.mem, h, i);
      if v.mem.SlotAt(h, i) == v.mem.SlotAt(spot.heap, spot.index) {
        SlotsAreDistinct(v.mem, h, i, spot.heap, spot.index);
      }
    }
  }

  lemma DetachedKeepsInv(v: StView, r: StView, t: CompType, place: Alive, managed: Managed, e: Entity)
    requires StInv(v, t, place, managed, {}) && e in v.mappings && e in place
    requires LocExists(v, place[e].phys, v.mappings[e].loc)
    requires var spot := SpotOf(v, place[e].phys, v.mappings[e].loc);
             WriteRel(v.mem, r.mem, spot.heap, spot.index, None, None)
    requires r == v.(mem := r.mem, mappings := v.mappings - {e})
    ensures StInv(r, t, place, managed, Reserved(v.mappings[e].loc))
    ensures FreeSpot(r, place[e].phys, v.mappings[e].loc)
  {
    var loc := v.mappings[e].loc;
    assert MappingOk(v, t, place, managed, e);
    var handle, spot := HandleAt(v, place[e].phys, loc), SpotOf(v, place[e].phys, loc);
    LocRole(v, t, place, managed, {}, place[e].phys, loc);
    forall f | f in r.mappings ensures MappingOk(r, t, place, managed, f) {
      assert MappingOk(v, t, place, managed, f);
    }
    forall s | r.mem.HasSlot(s) ensures OwnerOk(r, s) { assert OwnerOk(v, s); }
    forall h | h in r.mem.heaps ensures RoleOk(r, t, managed, h) { assert RoleOk(v, t, managed, h); }
    forall a | a in r.heaps ensures ListOk(r, a) { assert ListOk(v, a); }
    forall b | b in r.lots ensures LotOk(r, Reserved(loc), b) {
      assert LotOk(v, {}, b);
      WriteKeepsLot(v, r, {}, b, spot, Reserved(loc));
    }
  }

  // === Changes outside the storage === //

  /** Nothing about the entities with a component changes, and nothing about the archetypes in use. */
  lemma ElsewhereKeepsInv(v: StView, t: CompType, place: Alive, managed: Managed, place': Alive, managed': Managed)
    requires StInv(v, t, place, managed, {})
    requires forall e :: e in v.mappings ==> e in place ==>
      && e in place' && place'[e].phys == place[e].phys && place'[e].Place() == place[e].Place()
      && (place[e].phys in managed ==> place[e].phys in managed' && managed'[place[e].phys] == managed[place[e].phys])
    requires forall a :: a in v.heaps && a in managed && v.heaps[a] != [] ==> a in managed' && managed'[a] == managed[a]
    ensures StInv(v, t, place', managed', {})
  {
    forall e | e in v.mappings
      ensures MappingOk(v, t, place', managed', e)
    {
      assert MappingOk(v, t, place, managed, e);
    }
    forall h | h in v.mem.heaps ensures RoleOk(v, t, managed', h) { assert RoleOk(v, t, managed, h); }
  }

  /** An entity whose component is anonymous, or that has none, may be laid out anywhere that does not
      manage the type. */
  lemma AnonymousStays(v: StView, t: CompType, place: Alive, managed: Managed, e: Entity, info: Info)
    requires StInv(v, t, place, managed, {})
    requires e in v.mappings ==> v.mappings[e].loc.Anonymous? && info.phys in managed && t !in managed[info.phys]
    ensures StInv(v, t, place[e := info], managed, {})
  {
    forall f | f in v.mappings ensures MappingOk(v, t, place[e := info], managed, f) {
      assert MappingOk(v, t, place, managed, f);
    }
  }
}
