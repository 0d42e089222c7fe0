/** How entity records and archetype layouts mirror each other, and what the steps of a flush do to
    them (`src/database.rs`, `flush_archetypes`). */
module Layout {
  import opened Iters
  import opened Arena
  import opened Heaps
  import opened Archetypes

  datatype Info = Info(compList: Ptr, virt: Ptr, phys: Ptr, heapIndex: int, slotIndex: int) {
    function Place(): Pos { Pos(heapIndex, slotIndex) }

    function MovedTo(phys: Ptr, p: Pos): Info {
      this.(phys := phys, heapIndex := p.heap, slotIndex := p.slot)
    }
  }

  /** A dead entity that still occupies a slot. */
  datatype Dead = Dead(entity: Entity, phys: Ptr, heapIndex: int, slotIndex: int) {
    function Place(): Pos { Pos(heapIndex, slotIndex) }
  }

  type Alive = map<Entity, Info>
  type Arches = map<Ptr, Arch>

  // === The mirror invariant === //

  ghost predicate LivesAt(alive: Alive, e: Entity, a: Ptr, p: Pos) {
    e in alive && alive[e].phys == a && alive[e].Place() == p
  }

  /** A live entity in a non-root archetype occupies exactly the cell its record names. */
  ghost predicate LiveOk(alive: Alive, arches: Arches, root: Ptr, e: Entity)
    requires e in alive
  {
    && alive[e].phys in arches && alive[e].virt in arches
    && (alive[e].phys != root ==> At(arches[alive[e].phys], alive[e].Place()) == Some(e))
  }

  /** An occupied cell belongs to a live entity recorded there, or to a dead one on the list. */
  ghost predicate CellOk(alive: Alive, arches: Arches, pending: set<Dead>, a: Ptr, p: Pos)
    requires a in arches
  {
    match At(arches[a], p)
    case None => true
    case Some(e) => LivesAt(alive, e, a, p) || Dead(e, a, p.heap, p.slot) in pending
  }

  /** While the purge runs, the cell of a dead entity may already have been popped; otherwise it still
      holds that entity, which never moves. */
  ghost predicate DeadOk(alive: Alive, arches: Arches, root: Ptr, d: Dead) {
    && d.phys in arches && d.phys != root && InCap(d.Place())
    && d.entity !in alive
    && (At(arches[d.phys], d.Place()) == Some(d.entity) || At(arches[d.phys], d.Place()) == None)
  }

  ghost predicate SamePlace(d1: Dead, d2: Dead) {
    d1.phys == d2.phys && d1.Place() == d2.Place()
  }

  ghost predicate Mirrored(alive: Alive, arches: Arches, root: Ptr, pending: set<Dead>) {
    && root in arches && arches[root].heaps == []
    && (forall a {:trigger ArchOk(arches[a])} :: a in arches ==> ArchOk(arches[a]))
    && (forall e {:trigger LiveOk(alive, arches, root, e)} :: e in alive ==> LiveOk(alive, arches, root, e))
    && (forall a, p {:trigger CellOk(alive, arches, pending, a, p)} :: a in arches ==>
         CellOk(alive, arches, pending, a, p))
    && (forall d {:trigger DeadOk(alive, arches, root, d)} :: d in pending ==> DeadOk(alive, arches, root, d))
    && (forall d1, d2 {:trigger SamePlace(d1, d2)} :: d1 in pending && d2 in pending && SamePlace(d1, d2) ==> d1 == d2)
  }

  /** Between flushes no cell of a dead entity has been popped yet. */
  ghost predicate NonePopped(arches: Arches, pending: set<Dead>) {
    forall d :: d in pending ==> d.phys in arches && At(arches[d.phys], d.Place()) == Some(d.entity)
  }

  /** The occupied cells of non-root archetypes are in bijection with the live entities in them. */
  lemma NoDeadMeansBijection(alive: Alive, arches: Arches, root: Ptr, a: Ptr, p: Pos, e: Entity)
    requires Mirrored(alive, arches, root, {}) && a in arches
    ensures a != root ==> (At(arches[a], p) == Some(e) <==> LivesAt(alive, e, a, p))
    ensures a == root ==> At(arches[a], p) == None
  {
    assert CellOk(alive, arches, {}, a, p);
    if LivesAt(alive, e, a, p) { assert LiveOk(alive, arches, root, e); }
  }

  /** No two entities share a cell. */
  lemma PlacesAreDistinct(alive: Alive, arches: Arches, root: Ptr, pending: set<Dead>, e1: Entity, e2: Entity)
    requires Mirrored(alive, arches, root, pending) && e1 in alive && e2 in alive
    requires alive[e1].phys == alive[e2].phys != root && alive[e1].Place() == alive[e2].Place()
    ensures e1 == e2
  {
    assert LiveOk(alive, arches, root, e1) && LiveOk(alive, arches, root, e2);
  }

  // === The purge of dead entities === //

  /** Popping a dead entity off the end of an archetype. */
  lemma PopDeadKeepsMirror(alive: Alive, arches: Arches, root: Ptr, pending: set<Dead>, a: Ptr)
    requires Mirrored(alive, arches, root, pending) && a in arches && |arches[a].heaps| > 0
    requires At(arches[a], LastPos(arches[a])).Some? && At(arches[a], LastPos(arches[a])).value !in alive
    ensures HasCell(arches[a], LastPos(arches[a]))
    ensures Mirrored(alive, arches[a := Popped(arches[a])], root, pending)
  {
    PoppedOutcome(arches[a]);
    var after := arches[a := Popped(arches[a])];
    forall e | e in alive ensures LiveOk(alive, after, root, e) { assert LiveOk(alive, arches, root, e); }
    forall b, p | b in after
      ensures CellOk(alive, after, pending, b, p)
    {
      assert CellOk(alive, arches, pending, b, p);
    }
    forall d | d in pending ensures DeadOk(alive, after, root, d) { assert DeadOk(alive, arches, root, d); }
  }

  /** An entry whose cell was already popped is simply forgotten. */
  lemma ForgetKeepsMirror(alive: Alive, arches: Arches, root: Ptr, pending: set<Dead>, d: Dead)
    requires Mirrored(alive, arches, root, pending) && d in pending
    requires d.phys in arches && At(arches[d.phys], d.Place()) == None
    ensures Mirrored(alive, arches, root, pending - {d})
  {
    forall a, p | a in arches ensures CellOk(alive, arches, pending - {d}, a, p) {
      assert CellOk(alive, arches, pending, a, p);
    }
    forall d' | d' in pending - {d} ensures DeadOk(alive, arches, root, d') { assert DeadOk(alive, arches, root, d'); }
  }

  /** The cell of a dead entity filled with the (live) last entity, which is then popped. */
  function Filled(a: Arch, p: Pos, last: Entity): Arch
    requires HasCell(a, p) && HasCell(WithCell(a, p, last), LastPos(a))
  {
    Popped(WithCell(a, p, last))
  }

  lemma FilledOutcome(a: Arch, p: Pos, last: Entity)
    requires ArchOk(a) && Occupied(a, p) && p != LastPos(a)
    ensures HasCell(a, p) && HasCell(WithCell(a, p, last), LastPos(a))
    ensures ArchOk(Filled(a, p, last))
    ensures forall q ::
      At(Filled(a, p, last), q) == (if q == LastPos(a) then None else if q == p then Some(last) else At(a, q))
    ensures |Filled(a, p, last).heaps| == if a.lastHeapLen == 1 then |a.heaps| - 1 else |a.heaps|
  {
    WithCellOutcome(a, p, last);
    PoppedOutcome(WithCell(a, p, last));
  }

  lemma FillDeadKeepsMirror(alive: Alive, arches: Arches, root: Ptr, pending: set<Dead>, d: Dead, last: Entity)
    requires Mirrored(alive, arches, root, pending) && d in pending && d.phys in arches
    requires At(arches[d.phys], d.Place()) != None
    requires At(arches[d.phys], LastPos(arches[d.phys])) == Some(last) && last in alive
    ensures d.Place() != LastPos(arches[d.phys]) && Occupied(arches[d.phys], d.Place())
    ensures HasCell(arches[d.phys], d.Place())
    ensures HasCell(WithCell(arches[d.phys], d.Place(), last), LastPos(arches[d.phys]))
    ensures alive[last].phys == d.phys
    ensures Mirrored(alive[last := alive[last].MovedTo(d.phys, d.Place())],
                     arches[d.phys := Filled(arches[d.phys], d.Place(), last)], root, pending - {d})
  {
    var a, here := d.phys, d.Place();
    assert DeadOk(alive, arches, root, d);
    assert CellOk(alive, arches, pending, a, LastPos(arches[a]));
    var lastDead := Dead(last, a, LastPos(arches[a]).heap, LastPos(arches[a]).slot);
    assert lastDead in pending ==> DeadOk(alive, arches, root, lastDead);
    FilledOutcome(arches[a], here, last);
    var alive', arches' := alive[last := alive[last].MovedTo(a, here)], arches[a := Filled(arches[a], here, last)];
    forall e | e in alive' ensures LiveOk(alive', arches', root, e) {
      assert LiveOk(alive, arches, root, e);
    }
    forall b, p | b in arches' ensures CellOk(alive', arches', pending - {d}, b, p) {
      assert CellOk(alive, arches, pending, b, p);
    }
    forall d' | d' in pending - {d} ensures DeadOk(alive', arches', root, d') {
      assert DeadOk(alive, arches, root, d');
      assert SamePlace(d, d') ==> d == d';
    }
  }

  // === The moves of live entities === //

  /** Everything mirrors but one cell, the hole an entity is moving out of. */
  ghost predicate MirroredButHole(alive: Alive, arches: Arches, root: Ptr, hole: Ptr, here: Pos) {
    && root in arches && arches[root].heaps == []
    && (forall a {:trigger ArchOk(arches[a])} :: a in arches ==> ArchOk(arches[a]))
    && (forall e {:trigger LiveOk(alive, arches, root, e)} :: e in alive ==> LiveOk(alive, arches, root, e))
    && (forall a, p {:trigger CellOk(alive, arches, {}, a, p)} ::
          a in arches && !(a == hole && p == here) ==> CellOk(alive, arches, {}, a, p))
    && (hole != root ==>
          && hole in arches && At(arches[hole], here) != None
          && (forall e :: e in alive ==> !LivesAt(alive, e, hole, here)))
  }

  /** Moving an entity's record to the end of its destination (nothing is laid out in the root). */
  lemma EnterKeepsMirror(alive: Alive, arches: Arches, root: Ptr, e: Entity, dst: Ptr)
    requires Mirrored(alive, arches, root, {}) && e in alive && dst in arches && alive[e].phys != dst
    ensures dst == root ==>
      MirroredButHole(alive[e := alive[e].(phys := root)], arches, root, alive[e].phys, alive[e].Place())
    ensures dst != root ==>
      MirroredButHole(alive[e := alive[e].MovedTo(dst, NextPos(arches[dst]))], arches[dst := Pushed(arches[dst], e)],
                      root, alive[e].phys, alive[e].Place())
  {
    var src, here := alive[e].phys, alive[e].Place();
    assert LiveOk(alive, arches, root, e);
    PushedOutcome(arches[dst], e);
    var next := NextPos(arches[dst]);
    var alive' := if dst == root then alive[e := alive[e].(phys := root)] else alive[e := alive[e].MovedTo(dst, next)];
    var arches' := if dst == root then arches else arches[dst := Pushed(arches[dst], e)];
    forall f | f in alive' ensures LiveOk(alive', arches', root, f) { assert LiveOk(alive, arches, root, f); }
    forall a, p | a in arches' && !(a == src && p == here) ensures CellOk(alive', arches', {}, a, p) {
      assert CellOk(alive, arches, {}, a, p);
      assert a == root ==> At(arches[a], p) == None;
    }
    forall f | f in alive' && src != root ensures !LivesAt(alive', f, src, here) {
      if f != e && LivesAt(alive, f, src, here) { PlacesAreDistinct(alive, arches, root, {}, e, f); }
    }
  }

  /** The hole was the last cell: popping it restores the mirror. */
  lemma PopHoleKeepsMirror(alive: Alive, arches: Arches, root: Ptr, hole: Ptr)
    requires hole in arches && hole != root && |arches[hole].heaps| > 0
    requires MirroredButHole(alive, arches, root, hole, LastPos(arches[hole]))
    ensures HasCell(arches[hole], LastPos(arches[hole]))
    ensures Mirrored(alive, arches[hole := Popped(arches[hole])], root, {})
  {
    PoppedOutcome(arches[hole]);
    var after := arches[hole := Popped(arches[hole])];
    forall e | e in alive ensures LiveOk(alive, after, root, e) { assert LiveOk(alive, arches, root, e); }
    forall a, p | a in after ensures CellOk(alive, after, {}, a, p) {
      if !(a == hole && p == LastPos(arches[hole])) { assert CellOk(alive, arches, {}, a, p); }
    }
  }

  /** Otherwise the last entity, which is alive, fills the hole. */
  lemma FillHoleKeepsMirror(alive: Alive, arches: Arches, root: Ptr, hole: Ptr, here: Pos)
    requires hole in arches && hole != root && MirroredButHole(alive, arches, root, hole, here)
    requires here != LastPos(arches[hole]) && |arches[hole].heaps| > 0
    ensures At(arches[hole], LastPos(arches[hole])).Some? && At(arches[hole], LastPos(arches[hole])).value in alive
    ensures Occupied(arches[hole], here) && HasCell(arches[hole], here)
    ensures var last := At(arches[hole], LastPos(arches[hole])).value;
      && HasCell(WithCell(arches[hole], here, last), LastPos(arches[hole]))
      && alive[last].phys == hole && alive[last].Place() == LastPos(arches[hole])
      && Mirrored(alive[last := alive[last].MovedTo(hole, here)],
                  arches[hole := Filled(arches[hole], here, last)], root, {})
  {
    LastIsOccupied(arches[hole]);
    var last := At(arches[hole], LastPos(arches[hole])).value;
    assert CellOk(alive, arches, {}, hole, LastPos(arches[hole]));
    FilledOutcome(arches[hole], here, last);
    var alive', arches' :=
      alive[last := alive[last].MovedTo(hole, here)], arches[hole := Filled(arches[hole], here, last)];
    forall e | e in alive' ensures LiveOk(alive', arches', root, e) {
      assert LiveOk(alive, arches, root, e);
    }
    forall a, p | a in arches' ensures CellOk(alive', arches', {}, a, p) {
      if !(a == hole && p == here) { assert CellOk(alive, arches, {}, a, p); }
    }
  }

  /** Leaving the root leaves no hole. */
  lemma NoHoleInRoot(alive: Alive, arches: Arches, root: Ptr, here: Pos)
    requires MirroredButHole(alive, arches, root, root, here)
    ensures Mirrored(alive, arches, root, {})
  {
    forall a, p | a in arches ensures CellOk(alive, arches, {}, a, p) {
      if !(a == root && p == here) { assert CellOk(alive, arches, {}, a, p); }
    }
  }
}
