/** The traversal of one archetype by a query (`src/query.rs`, `QueryPart::query`): whole blocks first, a
    leftover in the last heap. */
module Traversal {
  import opened Sorting
  import opened Heaps
  import opened Archetypes

  const USIZE_MAX: int := 0xFFFF_FFFF_FFFF_FFFF

  // === What a query should visit === //

  /** The first `len` positions of a heap. */
  function Prefix(heap: int, len: int): seq<Pos>
    requires len >= 0
  {
    seq(len, s => Pos(heap, s))
  }

  /** How many positions of a heap are occupied: all of them, but for the last heap. */
  function OccupiedLen(a: Arch, heap: int): int
    requires 0 <= heap < |a.heaps|
  {
    if heap == |a.heaps| - 1 then a.lastHeapLen else |a.heaps[heap]|
  }

  /** The occupied positions of the first `n` heaps, in order. */
  function Positions(a: Arch, n: int): seq<Pos>
    requires 0 <= n <= |a.heaps| && a.lastHeapLen >= 0
  {
    if n == 0 then [] else Positions(a, n - 1) + Prefix(n - 1, OccupiedLen(a, n - 1))
  }

  lemma {:induction false} PositionsAre(a: Arch, n: int, p: Pos)
    requires ArchOk(a) && 0 <= n <= |a.heaps|
    ensures p in Positions(a, n) <==> p.heap < n && Occupied(a, p)
  {
    if n > 0 {
      PositionsAre(a, n - 1, p);
      var last := Prefix(n - 1, OccupiedLen(a, n - 1));
      if p.heap == n - 1 && Occupied(a, p) { assert last[p.slot] == p; }
      assert p in Positions(a, n) <==> p in Positions(a, n - 1) || p in last;
    }
  }

  lemma {:induction false} PositionsAreDistinct(a: Arch, n: int)
    requires ArchOk(a) && 0 <= n <= |a.heaps|
    ensures NoRepeats(Positions(a, n))
  {
    if n > 0 {
      PositionsAreDistinct(a, n - 1);
      var front, last := Positions(a, n - 1), Prefix(n - 1, OccupiedLen(a, n - 1));
      forall i | 0 <= i < |front| ensures front[i].heap < n - 1 {
        assert front[i] in front;
        PositionsAre(a, n - 1, front[i]);
      }
    }
  }

  /** Earlier heaps come first, and within a heap earlier slots. */
  ghost predicate Before(p: Pos, q: Pos) {
    p.heap < q.heap || (p.heap == q.heap && p.slot < q.slot)
  }

  lemma {:induction false} PositionsAreInOrder(a: Arch, n: int)
    requires ArchOk(a) && 0 <= n <= |a.heaps|
    ensures forall i, j :: 0 <= i < j < |Positions(a, n)| ==> Before(Positions(a, n)[i], Positions(a, n)[j])
  {
    if n > 0 {
      PositionsAreInOrder(a, n - 1);
      var front := Positions(a, n - 1);
      forall i | 0 <= i < |front| ensures front[i].heap < n - 1 {
        assert front[i] in front;
        PositionsAre(a, n - 1, front[i]);
      }
    }
  }

  // === What it does visit === //

  /** One block, or the front of one. The group borrow of a whole block may fail, in which case its
      elements are borrowed one by one; they are the same elements. */
  method VisitBlock(heap: int, block: int, count: int) returns (visits: seq<Pos>)
    requires 0 <= count <= LANES
    ensures |visits| == count && forall k :: 0 <= k < count ==> visits[k] == Pos(heap, block * LANES + k)
  {
    visits := [];
    var lane := 0;
    while lane < count
      invariant 0 <= lane <= count && |visits| == lane
      invariant forall k :: 0 <= k < lane ==> visits[k] == Pos(heap, block * LANES + k)
    {
      visits := visits + [Pos(heap, block * LANES + lane)];
      lane := lane + 1;
    }
  }

  /** One heap of `blocks` blocks. Any but the last is full, and its length is taken to be "really big". */
  method VisitHeap(heap: int, isLast: bool, lastHeapLen: int, blocks: int) returns (visits: seq<Pos>)
    requires blocks >= 0 && blocks * LANES <= USIZE_MAX
    requires isLast ==> 0 <= lastHeapLen <= blocks * LANES
    ensures visits == Prefix(heap, if isLast then lastHeapLen else blocks * LANES)
  {
    var lenOrBig := if isLast then lastHeapLen else USIZE_MAX;
    var completeOrBig := lenOrBig / LANES;
    visits := [];
    var b := 0;
    while b < completeOrBig && b < blocks
      invariant 0 <= b <= completeOrBig && b <= blocks && visits == Prefix(heap, b * LANES)
    {
      var more := VisitBlock(heap, b, LANES);
      visits := visits + more;
      b := b + 1;
    }
    assert b == if isLast then completeOrBig else blocks;
    var leftover := lenOrBig - completeOrBig * LANES;
    if isLast && leftover > 0 {
      // The incomplete block exists.
      assert completeOrBig < blocks;
      var more := VisitBlock(heap, completeOrBig, leftover);
      visits := visits + more;
    }
  }

  /** All heaps of an archetype with `heapCount` entity heaps; `blocks` has the number of blocks of each
      heap that is traversed. */
  method VisitArchetype(ghost a: Arch, heapCount: int, lastHeapLen: int, blocks: seq<int>) returns (visits: seq<Pos>)
    requires ArchOk(a) && heapCount == |a.heaps| == |blocks| && lastHeapLen == a.lastHeapLen
    requires forall i :: 0 <= i < |blocks| ==> blocks[i] * LANES == |a.heaps[i]| <= USIZE_MAX
    ensures visits == Positions(a, heapCount)
    ensures (forall p :: p in visits <==> Occupied(a, p))
    ensures forall i, j :: 0 <= i < j < |visits| ==> Before(visits[i], visits[j])
  {
    visits := [];
    var i := 0;
    while i < |blocks|
      invariant 0 <= i <= |blocks| && visits == Positions(a, i)
    {
      var more := VisitHeap(i, i == heapCount - 1, lastHeapLen, blocks[i]);
      visits := visits + more;
      i := i + 1;
    }
    forall p ensures p in visits <==> Occupied(a, p) { PositionsAre(a, heapCount, p); }
    PositionsAreInOrder(a, heapCount);
  }

  /** Heaps are made of whole blocks. */
  lemma {:induction false} HeapsAreBlocks(i: int)
    requires i >= 0
    ensures HeapCap(i) / LANES * LANES == HeapCap(i)
  {
    if i > 0 { HeapsAreBlocks(i - 1); }
  }
}
