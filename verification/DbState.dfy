/** The parts of the database invariant that relate entity records, archetypes, the key graph, the tag
    index and the storages (`src/database.rs`, `DbRoot`), and what single steps do to them. */
module DbState {
  import opened Iters
  import opened Sorting
  import opened Arena
  import opened KeyGraph
  import opened Collector
  import opened Heaps
  import opened Archetypes
  import opened Layout
  import opened StorageViews
  import opened Storages
  import opened StorageTables

  ghost function ManagedOf(arches: Arches): Managed {
    map a | a in arches :: arches[a].managed
  }

  /** What archetypes keep from their construction. */
  ghost predicate WellBuiltArch(arch: Arch) {
    Sorted(arch.managedSorted) && Elems(arch.managedSorted) == arch.managed
  }

  ghost predicate WellBuilt(arches: Arches, root: Ptr) {
    && root in arches && arches[root].managed == {}
    && forall a {:trigger WellBuiltArch(arches[a])} :: a in arches ==> WellBuiltArch(arches[a])
  }

  /** Only the layout and the counts of archetypes differ. */
  ghost predicate SameBuild(before: Arches, after: Arches) {
    && before.Keys == after.Keys
    && forall a {:trigger after[a]} :: a in before ==>
         && after[a].tags == before[a].tags
         && after[a].managed == before[a].managed && after[a].managedSorted == before[a].managedSorted
  }

  /** Only the layout of archetypes differs. */
  ghost predicate SameButHeaps(before: Arches, after: Arches) {
    && before.Keys == after.Keys
    && forall a {:trigger after[a]} :: a in before ==>
         && after[a].tags == before[a].tags && after[a].virtualCount == before[a].virtualCount
         && after[a].managed == before[a].managed && after[a].managedSorted == before[a].managedSorted
  }

  // === Virtual counts === //

  /** The live entities whose requested archetype is `a`. */
  ghost function Members(alive: Alive, a: Ptr): set<Entity> {
    set e | e in alive && alive[e].virt == a
  }

  ghost predicate CountOk(alive: Alive, arches: Arches, a: Ptr)
    requires a in arches
  {
    arches[a].virtualCount == |Members(alive, a)|
  }

  /** Every archetype but the root, which is not counted, knows how many entities want it. */
  ghost predicate CountsOk(alive: Alive, arches: Arches, root: Ptr) {
    forall a {:trigger CountOk(alive, arches, a)} :: a in arches && a != root ==> CountOk(alive, arches, a)
  }

  /** Adding to the count of an archetype; the root is not counted. */
  ghost function Counted(arches: Arches, root: Ptr, a: Ptr, delta: int): Arches
    requires a in arches
  {
    if a == root then arches else arches[a := arches[a].(virtualCount := arches[a].virtualCount + delta)]
  }

  lemma MemberCounts(alive: Alive, arches: Arches, root: Ptr, e: Entity)
    requires CountsOk(alive, arches, root) && e in alive && alive[e].virt in arches && alive[e].virt != root
    ensures arches[alive[e].virt].virtualCount >= 1
  {
    assert CountOk(alive, arches, alive[e].virt);
    assert e in Members(alive, alive[e].virt);
    assert |Members(alive, alive[e].virt)| > 0;
  }

  lemma CountsAfterDeath(alive: Alive, arches: Arches, root: Ptr, e: Entity)
    requires CountsOk(alive, arches, root) && e in alive && alive[e].virt in arches
    ensures CountsOk(alive - {e}, Counted(arches, root, alive[e].virt, -1), root)
  {
    var after := Counted(arches, root, alive[e].virt, -1);
    forall a | a in after && a != root ensures CountOk(alive - {e}, after, a) {
      assert CountOk(alive, arches, a);
      if a == alive[e].virt {
        assert Members(alive - {e}, a) == Members(alive, a) - {e};
      } else {
        assert Members(alive - {e}, a) == Members(alive, a);
      }
    }
  }

  lemma CountsAfterRetag(alive: Alive, arches: Arches, root: Ptr, e: Entity, target: Ptr)
    requires CountsOk(alive, arches, root) && e in alive && alive[e].virt in arches && target in arches
    ensures CountsOk(alive[e := alive[e].(virt := target)],
                     Counted(Counted(arches, root, alive[e].virt, -1), root, target, 1), root)
  {
    CountsAfterDeath(alive, arches, root, e);
    var mid := Counted(arches, root, alive[e].virt, -1);
    var alive' := alive[e := alive[e].(virt := target)];
    var after := Counted(mid, root, target, 1);
    forall a | a in after && a != root ensures CountOk(alive', after, a) {
      assert CountOk(alive - {e}, mid, a);
      if a == target {
        assert Members(alive', a) == Members(alive - {e}, a) + {e};
      } else {
        assert Members(alive', a) == Members(alive - {e}, a);
      }
    }
  }

  /** A new archetype nobody wants yet. */
  lemma CountsWithNew(alive: Alive, arches: Arches, root: Ptr, a: Ptr, arch: Arch)
    requires CountsOk(alive, arches, root) && a !in arches && arch.virtualCount == 0
    requires forall e :: e in alive ==> alive[e].virt in arches
    ensures CountsOk(alive, arches[a := arch], root)
  {
    var after := arches[a := arch];
    forall b | b in after && b != root ensures CountOk(alive, after, b) {
      if b == a {
        assert forall e :: e in alive ==> alive[e].virt in arches;
        assert |Members(alive, a)| == 0;
      } else {
        assert CountOk(alive, arches, b);
      }
    }
  }

  // === Idle archetypes === //

  /** The root, and every archetype with entities in it, physically or virtually. */
  ghost function Busy(arches: Arches, root: Ptr): set<Ptr> {
    set a | a in arches && (a == root || arches[a].heaps != [] || arches[a].virtualCount > 0)
  }

  /** Every archetype is in use, or a stepping stone to others, or about to be looked at. */
  ghost predicate NoIdleBut(g: Graph, busy: set<Ptr>, exempt: set<Ptr>) {
    forall p {:trigger HasOnward(g, p)} :: p in g ==> p in busy || HasOnward(g, p) || p in exempt
  }

  /** What was asked for no longer needs an exemption. */
  lemma CollectionLeavesNoIdle(g: Graph, busy: set<Ptr>, exempt: set<Ptr>, asked: set<Ptr>, r: set<Ptr>)
    requires NoIdleBut(g, busy, exempt) && IsCollection(g, busy, asked, r)
    ensures NoIdleBut(Minus(g, r), busy, exempt - asked)
  {
    forall p | p in Minus(g, r) ensures p in busy || HasOnward(Minus(g, r), p) || p in exempt - asked {
      assert p in r <==> Goes(g, busy, asked, r, p);
      MinusOnward(g, r, p);
    }
  }

  lemma TriedLeavesNoIdle(g: Graph, busy: set<Ptr>, a: Ptr, gone: set<Ptr>)
    requires NoIdleBut(g, busy, {a}) && Tried(g, busy, a, gone)
    ensures NoIdleBut(Minus(g, gone), busy, {}) && gone <= g.Keys && gone !! busy
  {
    if Removable(g, busy, a) {
      CollectionIsIdle(g, busy, {a}, gone);
      CollectionLeavesNoIdle(g, busy, {a}, {a}, gone);
    } else {
      MinusNothing(g);
    }
  }

  // === The tag index === //

  datatype TagInfo = TagInfo(containers: seq<Ptr>, sorted: bool)

  type TagMap = map<Tag, TagInfo>

  /** The containers of a tag: the live archetypes that have it, each once, sorted if the flag says so. */
  ghost predicate TagOk(tagMap: TagMap, arches: Arches, t: Tag)
    requires t in tagMap
  {
    var c := tagMap[t].containers;
    && c != []
    && NoRepeats(c)
    && (forall b :: b in c ==> b in arches && t in arches[b].tags)
    && (tagMap[t].sorted ==> Ascending(c))
  }

  ghost predicate Indexed(tagMap: TagMap, a: Ptr, arch: Arch) {
    forall t :: t in arch.tags ==> t in tagMap && a in tagMap[t].containers
  }

  ghost predicate TagIndex(tagMap: TagMap, arches: Arches) {
    && (forall t {:trigger TagOk(tagMap, arches, t)} :: t in tagMap ==> TagOk(tagMap, arches, t))
    && (forall a {:trigger Indexed(tagMap, a, arches[a])} :: a in arches ==> Indexed(tagMap, a, arches[a]))
  }

  /** Only what the tag index does not look at differs. */
  ghost predicate SameTags(before: Arches, after: Arches) {
    before.Keys == after.Keys && forall a {:trigger after[a]} :: a in before ==> after[a].tags == before[a].tags
  }

  lemma SameTagsKeepIndex(tagMap: TagMap, before: Arches, after: Arches)
    requires TagIndex(tagMap, before) && SameTags(before, after)
    ensures TagIndex(tagMap, after)
  {
    forall t | t in tagMap ensures TagOk(tagMap, after, t) { assert TagOk(tagMap, before, t); }
    forall a | a in after ensures Indexed(tagMap, a, after[a]) { assert Indexed(tagMap, a, before[a]); }
  }

  // === Component heaps never outgrow entity heaps === //

  ghost predicate TrimmedIn(v: StView, arches: Arches, exempt: set<Ptr>) {
    forall a :: a in v.heaps ==> a in arches && (a in exempt || |v.heaps[a]| <= |arches[a].heaps|)
  }

  ghost predicate Trimmed(views: Views, arches: Arches, exempt: set<Ptr>) {
    forall t {:trigger TrimmedIn(views[t], arches, exempt)} :: t in views ==> TrimmedIn(views[t], arches, exempt)
  }

  /** No storage has heaps for an archetype that is freed, so a reused index inherits none. */
  lemma NoHeapsWhereNoEntities(views: Views, place: Alive, arches: Arches, a: Ptr, t: CompType)
    requires AllSettled(views, place, ManagedOf(arches)) && Trimmed(views, arches, {})
    requires t in views && a in arches && arches[a].heaps == []
    ensures a !in views[t].heaps
  {
    assert TrimmedIn(views[t], arches, {});
    assert Settled(views[t], t, place, ManagedOf(arches));
  }

  // === The changes that leave the layout alone === //

  ghost predicate SameLayout(before: Arches, after: Arches) {
    && before.Keys == after.Keys
    && forall a {:trigger after[a]} :: a in before ==>
         after[a].heaps == before[a].heaps && after[a].lastHeapLen == before[a].lastHeapLen
  }

  /** Records may change in what the layout does not look at. */
  ghost predicate SamePlaces(before: Alive, after: Alive, arches: Arches) {
    && before.Keys == after.Keys
    && forall e {:trigger after[e]} :: e in before ==>
         && after[e].phys == before[e].phys && after[e].Place() == before[e].Place()
         && after[e].virt in arches
  }

  lemma SameLayoutKeepsMirror(alive: Alive, alive': Alive, arches: Arches, arches': Arches, root: Ptr,
                              pending: set<Dead>)
    requires Mirrored(alive, arches, root, pending) && NonePopped(arches, pending)
    requires SameLayout(arches, arches') && SamePlaces(alive, alive', arches)
    ensures Mirrored(alive', arches', root, pending) && NonePopped(arches', pending)
  {
    forall a, p | a in arches ensures At(arches'[a], p) == At(arches[a], p) {}
    forall a | a in arches' ensures ArchOk(arches'[a]) { assert ArchOk(arches[a]); }
    forall e | e in alive' ensures LiveOk(alive', arches', root, e) { assert LiveOk(alive, arches, root, e); }
    forall a, p | a in arches'
      ensures CellOk(alive', arches', pending, a, p)
    {
      assert CellOk(alive, arches, pending, a, p);
    }
    forall d | d in pending ensures DeadOk(alive', arches', root, d) { assert DeadOk(alive, arches, root, d); }
  }

  ghost predicate HasNoHeaps(arch: Arch) {
    arch.heaps == [] && arch.lastHeapLen == 0
  }

  lemma NewArchKeepsMirror(alive: Alive, arches: Arches, root: Ptr, pending: set<Dead>, a: Ptr, arch: Arch)
    requires Mirrored(alive, arches, root, pending) && NonePopped(arches, pending) && a !in arches && HasNoHeaps(arch)
    ensures Mirrored(alive, arches[a := arch], root, pending) && NonePopped(arches[a := arch], pending)
  {
    var after := arches[a := arch];
    forall e | e in alive ensures LiveOk(alive, after, root, e) { assert LiveOk(alive, arches, root, e); }
    forall b, p | b in after ensures CellOk(alive, after, pending, b, p) {
      if b != a { assert CellOk(alive, arches, pending, b, p); }
    }
    forall d | d in pending ensures DeadOk(alive, after, root, d) { assert DeadOk(alive, arches, root, d); }
  }

  lemma FreedArchesKeepMirror(alive: Alive, arches: Arches, root: Ptr, pending: set<Dead>, r: set<Ptr>)
    requires Mirrored(alive, arches, root, pending) && NonePopped(arches, pending)
    requires CountsOk(alive, arches, root) && r !! Busy(arches, root)
    ensures Mirrored(alive, arches - r, root, pending) && NonePopped(arches - r, pending)
    ensures CountsOk(alive, arches - r, root)
  {
    var after := arches - r;
    forall e | e in alive ensures LiveOk(alive, after, root, e) {
      assert LiveOk(alive, arches, root, e);
      if alive[e].virt != root { MemberCounts(alive, arches, root, e); }
    }
    forall b, p | b in after
      ensures CellOk(alive, after, pending, b, p)
    {
      assert CellOk(alive, arches, pending, b, p);
    }
    forall d | d in pending ensures DeadOk(alive, after, root, d) {
      assert DeadOk(alive, arches, root, d);
      assert At(arches[d.phys], d.Place()) != None;
    }
    forall a | a in after && a != root ensures CountOk(alive, after, a) { assert CountOk(alive, arches, a); }
  }

  /** The death of an entity: its cell, if it has one, is now on the dead list. */
  lemma DeathKeepsMirror(alive: Alive, arches: Arches, root: Ptr, pending: set<Dead>, e: Entity)
    requires Mirrored(alive, arches, root, pending) && NonePopped(arches, pending) && e in alive
    ensures var info := alive[e];
      var pending' := if info.phys == root then pending
        else pending + {Dead(e, info.phys, info.heapIndex, info.slotIndex)};
      Mirrored(alive - {e}, arches, root, pending') && NonePopped(arches, pending')
  {
    var info := alive[e];
    var d := Dead(e, info.phys, info.heapIndex, info.slotIndex);
    var pending' := if info.phys == root then pending else pending + {d};
    assert LiveOk(alive, arches, root, e);
    forall f | f in alive - {e} ensures LiveOk(alive - {e}, arches, root, f) { assert LiveOk(alive, arches, root, f); }
    forall a, p | a in arches ensures CellOk(alive - {e}, arches, pending', a, p) {
      assert CellOk(alive, arches, pending, a, p);
      assert a == root ==> At(arches[a], p) == None;
    }
    forall d' | d' in pending' ensures DeadOk(alive - {e}, arches, root, d') {
      if d' in pending {
        assert DeadOk(alive, arches, root, d');
      } else {
        OccupiedInCap(arches[info.phys], info.Place());
      }
    }
    forall d1, d2 | d1 in pending' && d2 in pending' && SamePlace(d1, d2) ensures d1 == d2 {
      assert d1 in pending && d2 in pending ==> SamePlace(d1, d2);
    }
  }
}

/** The recursion of `rec_remove_stepping_stone_arches`, one predecessor at a time. */
module Removal {
  import opened Arena
  import opened KeyGraph
  import opened Collector

  /** Key `k` names a predecessor of `p` that is removable once `p` is gone. */
  ghost predicate Asks(g: Graph, busy: set<Ptr>, p: Ptr, k: Key)
    requires p in g && k in g[p].de
  {
    g[p].de[k] != p && g[p].de[k] in g && Removable(Minus(g, {p}), busy, g[p].de[k])
  }

  /** The predecessors asked for once the given keys have been handled. */
  ghost function AskedOf(g: Graph, busy: set<Ptr>, p: Ptr, done: set<Key>): set<Ptr>
    requires p in g && done <= g[p].de.Keys
  {
    set k | k in done && Asks(g, busy, p, k) :: g[p].de[k]
  }

  /** The context of the loop: `r` went so far. */
  ghost predicate Removing(g: Graph, root: Ptr, busy: set<Ptr>, p: Ptr, done: set<Key>, r: set<Ptr>) {
    && GraphInv(g, root) && p in g && p != root && Removable(g, busy, p) && done <= g[p].de.Keys
    && IsCollection(Minus(g, {p}), busy, AskedOf(g, busy, p, done), r)
  }

  lemma PredecessorHasOneKeyLess(g: Graph, root: Ptr, p: Ptr, k: Key)
    requires GraphInv(g, root) && p in g && k in g[p].de && g[p].de[k] != p
    ensures var s := g[p].de[k];
      s in g && k in g[p].keys && g[s].keys == g[p].keys - {k} && |g[s].keys| == |g[p].keys| - 1 && Precedes(g, s, p)
  {
    assert NodeOk(g, p) && DeOk(g, p, k);
  }

  /** Everything that went has fewer keys than `p`, and those with just one key less were asked for. */
  lemma GoneIsBelow(g: Graph, root: Ptr, busy: set<Ptr>, p: Ptr, done: set<Key>, r: set<Ptr>, q: Ptr)
    requires Removing(g, root, busy, p, done, r) && q in r
    ensures q in g && q != p && |g[q].keys| < |g[p].keys|
    ensures |g[q].keys| == |g[p].keys| - 1 ==> q in AskedOf(g, busy, p, done)
  {
    MinusOne(g, p);
    UnlinkedKeepsInv(g, root, p);
    var h, asked := Minus(g, {p}), AskedOf(g, busy, p, done);
    assert q in h;
    CollectionIsUnique(h, root, busy, asked, r, q);
    var a := CollectedLiesBelowAsked(h, root, busy, asked, q);
    var k :| k in done && Asks(g, busy, p, k) && g[p].de[k] == a;
    PredecessorHasOneKeyLess(g, root, p, k);
  }

  /** The next predecessor has not gone yet, and is as removable as when the loop began. */
  lemma NextPredecessor(g: Graph, root: Ptr, busy: set<Ptr>, p: Ptr, done: set<Key>, r: set<Ptr>, k: Key)
    requires Removing(g, root, busy, p, done, r) && k in g[p].de && k !in done && g[p].de[k] != p
    ensures var s, h := g[p].de[k], Minus(g, {p});
      && s in h && s !in r && |g[s].keys| == |g[p].keys| - 1
      && (Removable(Minus(h, r), busy, s) <==> Asks(g, busy, p, k))
  {
    var s, h := g[p].de[k], Minus(g, {p});
    PredecessorHasOneKeyLess(g, root, p, k);
    if s in r {
      GoneIsBelow(g, root, busy, p, done, r, s);
      var k' :| k' in done && Asks(g, busy, p, k') && g[p].de[k'] == s;
      PredecessorHasOneKeyLess(g, root, p, k');
    }
    MinusOnward(h, r, s);
    MinusOne(g, p);
    UnlinkedKeepsInv(g, root, p);
    forall j | j in h[s].ext && h[s].ext[j] != s ensures h[s].ext[j] !in r {
      OnwardIsAbove(h, root, s, j);
      if h[s].ext[j] in r { GoneIsBelow(g, root, busy, p, done, r, h[s].ext[j]); }
    }
  }

  lemma AskedStep(g: Graph, busy: set<Ptr>, p: Ptr, done: set<Key>, k: Key)
    requires p in g && done <= g[p].de.Keys && k in g[p].de
    ensures AskedOf(g, busy, p, done + {k})
      == AskedOf(g, busy, p, done) + (if Asks(g, busy, p, k) then {g[p].de[k]} else {})
  {
  }

  /** In the end all removable predecessors were asked for. */
  lemma AllAsked(g: Graph, root: Ptr, busy: set<Ptr>, p: Ptr)
    requires GraphInv(g, root) && p in g && p != root
    ensures forall s :: s in AskedOf(g, busy, p, g[p].de.Keys) <==>
      s in g && s != p && Precedes(g, s, p) && Removable(Minus(g, {p}), busy, s)
  {
    assert NodeOk(g, p);
    forall s | s in g && s != p && Precedes(g, s, p) && Removable(Minus(g, {p}), busy, s)
      ensures s in AskedOf(g, busy, p, g[p].de.Keys)
    {
      var k :| k in g[s].ext && g[s].ext[k] == p;
      assert NodeOk(g, s) && ExtOk(g, s, k);
      assert Asks(g, busy, p, k);
    }
    forall k | k in g[p].de && Asks(g, busy, p, k) ensures Precedes(g, g[p].de[k], p) {
      PredecessorHasOneKeyLess(g, root, p, k);
    }
  }

  // === The steps of the loop === //

  lemma MapMinusTwice<T>(m: map<Ptr, T>, a: set<Ptr>, b: set<Ptr>)
    ensures m - a - b == m - (a + b) && m - {} == m
  {
  }

  lemma RemovingStart(g: Graph, root: Ptr, busy: set<Ptr>, p: Ptr)
    requires GraphInv(g, root) && p in g && p != root && Removable(g, busy, p)
    ensures Removing(g, root, busy, p, {}, {}) && Minus(Minus(g, {p}), {}) == Minus(g, {p})
  {
    CollectNothing(Minus(g, {p}), busy);
    MinusNothing(Minus(g, {p}));
    assert AskedOf(g, busy, p, {}) == {};
  }

  /** A predecessor was removed with everything that went because of it. */
  lemma RemovingMore(g: Graph, root: Ptr, busy: set<Ptr>, p: Ptr, done: set<Key>, r: set<Ptr>, k: Key, r2: set<Ptr>)
    requires Removing(g, root, busy, p, done, r) && k in g[p].de && k !in done && g[p].de[k] != p
    requires g[p].de[k] in Minus(Minus(g, {p}), r) && Removable(Minus(Minus(g, {p}), r), busy, g[p].de[k])
    requires IsCollection(Minus(Minus(g, {p}), r), busy, {g[p].de[k]}, r2)
    ensures Removing(g, root, busy, p, done + {k}, r + r2)
    ensures Minus(Minus(Minus(g, {p}), r), r2) == Minus(Minus(g, {p}), r + r2)
  {
    var h, s := Minus(g, {p}), g[p].de[k];
    NextPredecessor(g, root, busy, p, done, r, k);
    AskedStep(g, busy, p, done, k);
    CollectOneMore(h, busy, AskedOf(g, busy, p, done), r, s, r2);
    MinusTwice(h, r, r2);
  }

  /** A self-loop, or a predecessor that must stay. */
  lemma RemovingSame(g: Graph, root: Ptr, busy: set<Ptr>, p: Ptr, done: set<Key>, r: set<Ptr>, k: Key)
    requires Removing(g, root, busy, p, done, r) && k in g[p].de && k !in done
    requires g[p].de[k] != p && g[p].de[k] in Minus(Minus(g, {p}), r) ==>
      !Removable(Minus(Minus(g, {p}), r), busy, g[p].de[k])
    ensures Removing(g, root, busy, p, done + {k}, r)
  {
    if g[p].de[k] != p { NextPredecessor(g, root, busy, p, done, r, k); }
    AskedStep(g, busy, p, done, k);
    assert AskedOf(g, busy, p, done) + {} == AskedOf(g, busy, p, done);
  }

  lemma RemovingEnd(g: Graph, root: Ptr, busy: set<Ptr>, p: Ptr, r: set<Ptr>)
    requires p in g && Removing(g, root, busy, p, g[p].de.Keys, r)
    ensures IsCollection(g, busy, {p}, {p} + r) && Minus(Minus(g, {p}), r) == Minus(g, {p} + r)
  {
    AllAsked(g, root, busy, p);
    CollectFromPredecessors(g, busy, p, AskedOf(g, busy, p, g[p].de.Keys), r);
    MinusTwice(g, {p}, r);
  }
}
