/** The dense entity layout of one archetype (`src/database.rs`, `DbArchetype`): heaps of doubling
    size, all full but the last. */
module Archetypes {
  import opened Iters
  import opened Heaps

  type Tag = int
  type CompType = int

  const PLACEHOLDER: Entity := 0xFFFF_FFFF_FFFF_FFFF

  datatype Pos = Pos(heap: int, slot: int)

  datatype Arch = Arch(
    tags: seq<Tag>,
    managed: set<CompType>,
    managedSorted: seq<CompType>,
    heaps: seq<seq<Entity>>,
    lastHeapLen: int,
    virtualCount: int)

  /** Heap `i` always has 128 * 2^i slots. */
  function HeapCap(i: int): int
    requires i >= 0
    ensures HeapCap(i) >= 128
  {
    if i == 0 then 128 else 2 * HeapCap(i - 1)
  }

  predicate Occupied(a: Arch, p: Pos) {
    && 0 <= p.heap < |a.heaps| && 0 <= p.slot < |a.heaps[p.heap]|
    && (p.heap == |a.heaps| - 1 ==> p.slot < a.lastHeapLen)
  }

  /** The entity at an occupied position. */
  function At(a: Arch, p: Pos): Option<Entity> {
    if Occupied(a, p) then Some(a.heaps[p.heap][p.slot]) else None
  }

  predicate HasCell(a: Arch, p: Pos) {
    0 <= p.heap < |a.heaps| && 0 <= p.slot < |a.heaps[p.heap]|
  }

  /** Positions some archetype could use. */
  predicate InCap(p: Pos) {
    p.heap >= 0 && 0 <= p.slot < HeapCap(p.heap)
  }

  ghost predicate VacantFrom(heap: seq<Entity>, len: int) {
    forall s :: 0 <= len <= s < |heap| ==> heap[s] == PLACEHOLDER
  }

  ghost predicate ArchOk(a: Arch) {
    && (|a.heaps| == 0 ==> a.lastHeapLen == 0)
    && (|a.heaps| > 0 ==> 0 < a.lastHeapLen <= |a.heaps[|a.heaps| - 1]|)
    && (forall i :: 0 <= i < |a.heaps| ==> |a.heaps[i]| == HeapCap(i))
    // The cells past the end are reset (in debug builds).
    && (|a.heaps| > 0 ==> VacantFrom(a.heaps[|a.heaps| - 1], a.lastHeapLen))
  }

  function LastPos(a: Arch): Pos {
    Pos(|a.heaps| - 1, a.lastHeapLen - 1)
  }

  function WithCell(a: Arch, p: Pos, e: Entity): Arch
    requires HasCell(a, p)
  {
    a.(heaps := a.heaps[p.heap := a.heaps[p.heap][p.slot := e]])
  }

  /** Dropping the last entity, and the last heap once it is empty. */
  function Popped(a: Arch): Arch
    requires HasCell(a, LastPos(a))
  {
    var b := WithCell(a, LastPos(a), PLACEHOLDER).(lastHeapLen := a.lastHeapLen - 1);
    if b.lastHeapLen > 0 then b
    else
      var heaps := b.heaps[..|b.heaps| - 1];
      b.(heaps := heaps, lastHeapLen := if |heaps| > 0 then |heaps[|heaps| - 1]| else 0)
  }

  /** The very last cell, occupied or not. */
  ghost function LastCell(a: Arch): Pos
    requires a.heaps != []
  {
    Pos(|a.heaps| - 1, |a.heaps[|a.heaps| - 1]| - 1)
  }

  function LastCap(a: Arch): int {
    if |a.heaps| > 0 then |a.heaps[|a.heaps| - 1]| else 0
  }

  /** The size of the next heap. */
  function NextCap(a: Arch): int {
    if LastCap(a) * 2 > 128 then LastCap(a) * 2 else 128
  }

  /** The position the next entity gets. */
  function NextPos(a: Arch): Pos {
    if a.lastHeapLen == LastCap(a) then Pos(|a.heaps|, 0) else Pos(|a.heaps| - 1, a.lastHeapLen)
  }

  /** Appending an entity, in a new heap if the last one is full. */
  function Pushed(a: Arch, e: Entity): Arch
    requires ArchOk(a)
  {
    if a.lastHeapLen == LastCap(a) then
      a.(heaps := a.heaps + [seq(NextCap(a), _ => PLACEHOLDER)[0 := e]], lastHeapLen := 1)
    else
      WithCell(a, NextPos(a), e).(lastHeapLen := a.lastHeapLen + 1)
  }

  /** The first heap has 128 cells, and each further one twice as many as the one before. */
  ghost predicate Doubling(sizes: seq<int>) {
    && (|sizes| > 0 ==> sizes[0] == 128)
    && forall i :: 0 < i < |sizes| ==> sizes[i] == sizes[i - 1] * 2
  }

  ghost function SizesOf<T>(heaps: seq<seq<T>>): (sizes: seq<int>)
    ensures |sizes| == |heaps| && forall i :: 0 <= i < |heaps| ==> sizes[i] == |heaps[i]|
  {
    seq(|heaps|, i requires 0 <= i < |heaps| => |heaps[i]|)
  }

  lemma CapsAreDoubling(sizes: seq<int>)
    requires forall i :: 0 <= i < |sizes| ==> sizes[i] == HeapCap(i)
    ensures Doubling(sizes)
  {
    forall i | 0 < i < |sizes| ensures sizes[i] == sizes[i - 1] * 2 {
      assert HeapCap(i) == 2 * HeapCap(i - 1);
    }
  }

  lemma HeapsAreDoubling(a: Arch)
    requires ArchOk(a)
    ensures Doubling(SizesOf(a.heaps))
  {
    CapsAreDoubling(SizesOf(a.heaps));
  }

  // === What the operations do to the occupied positions === //

  lemma LastIsOccupied(a: Arch)
    requires ArchOk(a) && |a.heaps| > 0
    ensures HasCell(a, LastPos(a)) && Occupied(a, LastPos(a)) && InCap(LastPos(a))
  {
  }

  lemma OccupiedInCap(a: Arch, p: Pos)
    requires ArchOk(a) && Occupied(a, p)
    ensures InCap(p) && HasCell(a, p)
  {
  }

  lemma WithCellOutcome(a: Arch, p: Pos, e: Entity)
    requires ArchOk(a) && Occupied(a, p)
    ensures HasCell(a, p) && ArchOk(WithCell(a, p, e))
    ensures LastPos(WithCell(a, p, e)) == LastPos(a) && |WithCell(a, p, e).heaps| == |a.heaps|
    ensures forall q :: At(WithCell(a, p, e), q) == if q == p then Some(e) else At(a, q)
  {
  }

  lemma PoppedOutcome(a: Arch)
    requires ArchOk(a) && |a.heaps| > 0
    ensures HasCell(a, LastPos(a)) && ArchOk(Popped(a))
    ensures forall q :: At(Popped(a), q) == if q == LastPos(a) then None else At(a, q)
    ensures |Popped(a).heaps| == if a.lastHeapLen == 1 then |a.heaps| - 1 else |a.heaps|
  {
    LastIsOccupied(a);
    var b, n := Popped(a), |a.heaps| - 1;
    if a.lastHeapLen == 1 {
      assert forall i :: 0 <= i < n ==> b.heaps[i] == a.heaps[i];
      forall q ensures At(b, q) == if q == LastPos(a) then None else At(a, q) {
        if q.heap == n { assert Occupied(a, q) <==> q == LastPos(a); }
      }
    }
  }

  lemma PushedCells(a: Arch, e: Entity)
    requires ArchOk(a)
    ensures ArchOk(Pushed(a, e)) && InCap(NextPos(a))
    ensures At(a, NextPos(a)) == None && LastPos(Pushed(a, e)) == NextPos(a)
    ensures forall q :: At(Pushed(a, e), q) == if q == NextPos(a) then Some(e) else At(a, q)
    ensures |Pushed(a, e).heaps| == NextPos(a).heap + 1
  {
    var b, n := Pushed(a, e), |a.heaps|;
    if a.lastHeapLen == LastCap(a) {
      assert NextCap(a) == HeapCap(n) by {
        if n > 0 { assert |a.heaps[n - 1]| == HeapCap(n - 1); }
      }
      assert forall i :: 0 <= i < n ==> b.heaps[i] == a.heaps[i];
    }
  }

  /** There is a new heap exactly if the very last cell was taken. */
  lemma PushedHeaps(a: Arch, e: Entity)
    requires ArchOk(a)
    ensures a.heaps != [] ==> (|Pushed(a, e).heaps| == |a.heaps| <==> At(a, LastCell(a)) == None)
    ensures |a.heaps| <= |Pushed(a, e).heaps| <= |a.heaps| + 1
    ensures forall i :: 0 <= i < |a.heaps| ==> |Pushed(a, e).heaps[i]| == |a.heaps[i]|
  {
  }

  lemma PushedOutcome(a: Arch, e: Entity)
    requires ArchOk(a)
    ensures ArchOk(Pushed(a, e)) && InCap(NextPos(a))
    ensures At(a, NextPos(a)) == None && LastPos(Pushed(a, e)) == NextPos(a)
    ensures forall q :: At(Pushed(a, e), q) == if q == NextPos(a) then Some(e) else At(a, q)
    ensures |Pushed(a, e).heaps| == NextPos(a).heap + 1
    ensures a.heaps != [] ==> (|Pushed(a, e).heaps| == |a.heaps| <==> At(a, LastCell(a)) == None)
    ensures SizesOf(a.heaps) <= SizesOf(Pushed(a, e).heaps) && Doubling(SizesOf(Pushed(a, e).heaps))
  {
    PushedCells(a, e);
    PushedHeaps(a, e);
    HeapsAreDoubling(Pushed(a, e));
  }

  /** The two skip tests of the purge are exact: they hold precisely when the position is no longer
      occupied. */
  lemma SkipTestsAreExact(a: Arch, p: Pos)
    requires ArchOk(a) && |a.heaps| > 0 && InCap(p)
    ensures (p.heap == |a.heaps| - 1 && p.slot >= a.lastHeapLen) || p.heap >= |a.heaps|
       <==> At(a, p) == None
  {
  }

}
