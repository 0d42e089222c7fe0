/** Component heaps and the indirectors behind slot handles (`src/core/heap.rs`). A handle names an
    indirector, which names the heap block and lane its value is in; swapping two slots moves the
    values and redirects both indirectors, so handles follow their values. */
module Heaps {
  import opened Iters

  type Entity = int
  type SlotId = int
  type HeapId = int
  type Value(==, !new)

  // === Lanes (`MultiRefCellIndex`) === //

  const LANES: int := 16

  /** `blocks_needed`. */
  function BlocksNeeded(len: int): int {
    (len + LANES - 1) / LANES
  }

  function Major(i: int): int { i / LANES }

  function Minor(i: int): int { i % LANES }

  lemma DecomposeIsInverse(i: int, len: int)
    requires 0 <= i < len
    ensures 0 <= Minor(i) < LANES && 0 <= Major(i) < BlocksNeeded(len)
    ensures LANES * Major(i) + Minor(i) == i
    ensures len <= LANES * BlocksNeeded(len) < len + LANES
  {
  }

  // === State === //

  /** The block an indirector points into: a block of a heap, or the shared empty one. */
  datatype BlockPtr = EmptyBlock | BlockOf(heap: HeapId, major: int)

  datatype Indirector = Indirector(owner: Option<Entity>, value: BlockPtr, index: int)

  const VACANT := Indirector(None, EmptyBlock, 0)

  /** `values` lists the lanes of all blocks in order. */
  datatype Heap = Heap(values: seq<Option<Value>>, slots: seq<SlotId>)

  datatype Mem = Mem(heaps: map<HeapId, Heap>, inds: seq<Indirector>, free: seq<SlotId>) {
    predicate HasSlot(s: SlotId) { 0 <= s < |inds| }

    /** Slot `i` of heap `h` exists. */
    predicate Has(h: HeapId, i: int) { h in heaps && 0 <= i < |heaps[h].slots| }

    function SlotAt(h: HeapId, i: int): SlotId
      requires Has(h, i)
    {
      heaps[h].slots[i]
    }

    function Owner(s: SlotId): Option<Entity>
      requires HasSlot(s)
    {
      inds[s].owner
    }

    /** The lane an indirector leads to. */
    function Lane(s: SlotId): int
      requires HasSlot(s) && inds[s].value.BlockOf?
    {
      LANES * inds[s].value.major + inds[s].index
    }

    /** Reading through a handle. */
    function Deref(s: SlotId): Option<Value>
      requires HasSlot(s)
    {
      match inds[s].value
      case EmptyBlock => None
      case BlockOf(h, _) =>
        if h in heaps && 0 <= Lane(s) < |heaps[h].values| then heaps[h].values[Lane(s)] else None
    }
  }

  // === Invariant === //

  /** Slot `i` of heap `h` points back to block `i / 16`, lane `i % 16` of that heap. */
  ghost predicate SlotOk(m: Mem, h: HeapId, i: int)
    requires m.Has(h, i)
  {
    var s := m.SlotAt(h, i);
    m.HasSlot(s) && m.inds[s].value == BlockOf(h, Major(i)) && m.inds[s].index == Minor(i)
  }

  /** Every indirector is in exactly one heap slot, or in the free list. */
  ghost predicate IndOk(m: Mem, s: SlotId)
    requires m.HasSlot(s)
  {
    match m.inds[s].value
    case EmptyBlock => s in m.free
    case BlockOf(h, _) => 0 <= m.inds[s].index < LANES && m.Has(h, m.Lane(s)) && m.SlotAt(h, m.Lane(s)) == s
  }

  ghost predicate FreeOk(m: Mem, k: int)
    requires 0 <= k < |m.free|
  {
    m.HasSlot(m.free[k]) && m.inds[m.free[k]] == VACANT
  }

  ghost predicate HeapOk(m: Mem, h: HeapId)
    requires h in m.heaps
  {
    |m.heaps[h].values| == LANES * BlocksNeeded(|m.heaps[h].slots|)
  }

  ghost predicate FreeApart(m: Mem, i: int, j: int) {
    0 <= i < j < |m.free| ==> m.free[i] != m.free[j]
  }

  ghost predicate MemInv(m: Mem) {
    && (forall h {:trigger HeapOk(m, h)} :: h in m.heaps ==> HeapOk(m, h))
    && (forall h, i {:trigger SlotOk(m, h, i)} :: m.Has(h, i) ==> SlotOk(m, h, i))
    && (forall s {:trigger IndOk(m, s)} :: m.HasSlot(s) ==> IndOk(m, s))
    && (forall k {:trigger FreeOk(m, k)} :: 0 <= k < |m.free| ==> FreeOk(m, k))
    && (forall i, j {:trigger FreeApart(m, i, j)} :: FreeApart(m, i, j))
  }

  lemma HeapsFit(m: Mem)
    ensures (forall h {:trigger HeapOk(m, h)} :: h in m.heaps ==> HeapOk(m, h)) <==>
      forall h :: h in m.heaps ==> |m.heaps[h].values| == LANES * BlocksNeeded(|m.heaps[h].slots|)
    ensures (forall i, j {:trigger FreeApart(m, i, j)} :: FreeApart(m, i, j)) <==>
      forall i, j :: 0 <= i < j < |m.free| ==> m.free[i] != m.free[j]
  {
    forall h | h in m.heaps && HeapOk(m, h) ensures |m.heaps[h].values| == LANES * BlocksNeeded(|m.heaps[h].slots|) {
    }
    forall i, j | 0 <= i < j < |m.free| && FreeApart(m, i, j) ensures m.free[i] != m.free[j] {
    }
  }

  /** No indirector is in two places. */
  lemma SlotsAreDistinct(m: Mem, h1: HeapId, i1: int, h2: HeapId, i2: int)
    requires MemInv(m) && m.Has(h1, i1) && m.Has(h2, i2) && m.SlotAt(h1, i1) == m.SlotAt(h2, i2)
    ensures h1 == h2 && i1 == i2
  {
    assert SlotOk(m, h1, i1) && SlotOk(m, h2, i2);
  }

  lemma DerefAt(m: Mem, h: HeapId, i: int)
    requires MemInv(m) && m.Has(h, i)
    ensures m.HasSlot(m.SlotAt(h, i)) && i < |m.heaps[h].values|
    ensures m.Deref(m.SlotAt(h, i)) == m.heaps[h].values[i]
  {
    assert SlotOk(m, h, i) && HeapOk(m, h);
    DecomposeIsInverse(i, |m.heaps[h].slots|);
  }

  // === Swapping === //

  function WithValue(m: Mem, h: HeapId, i: int, v: Option<Value>): Mem
    requires h in m.heaps && 0 <= i < |m.heaps[h].values|
  {
    m.(heaps := m.heaps[h := m.heaps[h].(values := m.heaps[h].values[i := v])])
  }

  function WithSlot(m: Mem, h: HeapId, i: int, s: SlotId): Mem
    requires m.Has(h, i)
  {
    m.(heaps := m.heaps[h := m.heaps[h].(slots := m.heaps[h].slots[i := s])])
  }

  function WithInd(m: Mem, s: SlotId, ind: Indirector): Mem
    requires m.HasSlot(s)
  {
    m.(inds := m.inds[s := ind])
  }

  /** What a swap of slot `i1` of `h1` with slot `i2` of `h2` does: values, then the indirectors'
      targets (not their owners), then the slots. */
  ghost function Swapped(m: Mem, h1: HeapId, i1: int, h2: HeapId, i2: int): Mem
    requires CanSwap(m, h1, i1, h2, i2)
  {
    var s1, s2 := m.SlotAt(h1, i1), m.SlotAt(h2, i2);
    var d1, d2 := m.inds[s1], m.inds[s2];
    var m1 := WithValue(m, h1, i1, m.heaps[h2].values[i2]);
    var m2 := WithValue(m1, h2, i2, m.heaps[h1].values[i1]);
    var m3 := WithInd(m2, s1, d1.(value := d2.value, index := d2.index));
    var m4 := WithInd(m3, s2, d2.(value := d1.value, index := d1.index));
    var m5 := WithSlot(m4, h1, i1, s2);
    WithSlot(m5, h2, i2, s1)
  }

  /** The slot that ends up at a position after a swap. */
  function SlotAfterSwap(m: Mem, h1: HeapId, i1: int, h2: HeapId, i2: int, h: HeapId, i: int): SlotId
    requires m.Has(h1, i1) && m.Has(h2, i2) && m.Has(h, i)
  {
    if h == h1 && i == i1 then m.SlotAt(h2, i2)
    else if h == h2 && i == i2 then m.SlotAt(h1, i1)
    else m.SlotAt(h, i)
  }

  ghost predicate CanSwap(m: Mem, h1: HeapId, i1: int, h2: HeapId, i2: int) {
    && m.Has(h1, i1) && m.Has(h2, i2)
    && m.HasSlot(m.SlotAt(h1, i1)) && m.HasSlot(m.SlotAt(h2, i2))
    && i1 < |m.heaps[h1].values| && i2 < |m.heaps[h2].values|
    && (m.SlotAt(h1, i1) == m.SlotAt(h2, i2) ==> h1 == h2 && i1 == i2)
  }

  lemma MemInvCanSwap(m: Mem, h1: HeapId, i1: int, h2: HeapId, i2: int)
    requires MemInv(m) && m.Has(h1, i1) && m.Has(h2, i2)
    ensures CanSwap(m, h1, i1, h2, i2)
  {
    DerefAt(m, h1, i1);
    DerefAt(m, h2, i2);
    if m.SlotAt(h1, i1) == m.SlotAt(h2, i2) { SlotsAreDistinct(m, h1, i1, h2, i2); }
  }

  /** The outcome of a swap, field by field. */
  lemma SwapOutcome(m: Mem, h1: HeapId, i1: int, h2: HeapId, i2: int)
    requires CanSwap(m, h1, i1, h2, i2)
    ensures var r, s1, s2 := Swapped(m, h1, i1, h2, i2), m.SlotAt(h1, i1), m.SlotAt(h2, i2);
      && r.heaps.Keys == m.heaps.Keys && r.free == m.free && |r.inds| == |m.inds|
      && (forall h :: h in m.heaps ==>
            |r.heaps[h].slots| == |m.heaps[h].slots| && |r.heaps[h].values| == |m.heaps[h].values|)
      && (forall h, i {:trigger r.SlotAt(h, i)} {:trigger m.SlotAt(h, i)} :: m.Has(h, i) ==>
            r.Has(h, i) && r.SlotAt(h, i) == SlotAfterSwap(m, h1, i1, h2, i2, h, i))
      && (forall s :: 0 <= s < |m.inds| ==> r.inds[s].owner == m.inds[s].owner)
      && (forall s :: 0 <= s < |m.inds| && s != s1 && s != s2 ==> r.inds[s] == m.inds[s])
      && r.inds[s1].value == m.inds[s2].value && r.inds[s1].index == m.inds[s2].index
      && r.inds[s2].value == m.inds[s1].value && r.inds[s2].index == m.inds[s1].index
  {
    var r := Swapped(m, h1, i1, h2, i2);
    forall h, i | m.Has(h, i) ensures r.Has(h, i) && r.SlotAt(h, i) == SlotAfterSwap(m, h1, i1, h2, i2, h, i) {
      SwapPosition(m, h1, i1, h2, i2, h, i);
    }
  }

  function ValueAfterSwap(m: Mem, h1: HeapId, i1: int, h2: HeapId, i2: int, h: HeapId, i: int): Option<Value>
    requires h1 in m.heaps && h2 in m.heaps && h in m.heaps
    requires 0 <= i1 < |m.heaps[h1].values| && 0 <= i2 < |m.heaps[h2].values| && 0 <= i < |m.heaps[h].values|
  {
    if h == h1 && i == i1 then m.heaps[h2].values[i2]
    else if h == h2 && i == i2 then m.heaps[h1].values[i1]
    else m.heaps[h].values[i]
  }

  lemma SwapPosition(m: Mem, h1: HeapId, i1: int, h2: HeapId, i2: int, h: HeapId, i: int)
    requires CanSwap(m, h1, i1, h2, i2) && h in m.heaps
    ensures var r := Swapped(m, h1, i1, h2, i2);
      && h in r.heaps
      && (m.Has(h, i) ==> r.Has(h, i) && r.SlotAt(h, i) == SlotAfterSwap(m, h1, i1, h2, i2, h, i))
      && |r.heaps[h].values| == |m.heaps[h].values|
      && (0 <= i < |m.heaps[h].values| ==> r.heaps[h].values[i] == ValueAfterSwap(m, h1, i1, h2, i2, h, i))
  {
  }

  lemma SwapKeepsInv(m: Mem, h1: HeapId, i1: int, h2: HeapId, i2: int)
    requires MemInv(m) && m.Has(h1, i1) && m.Has(h2, i2)
    ensures CanSwap(m, h1, i1, h2, i2) && MemInv(Swapped(m, h1, i1, h2, i2))
  {
    MemInvCanSwap(m, h1, i1, h2, i2);
    SwapOutcome(m, h1, i1, h2, i2);
    assert SlotOk(m, h1, i1) && SlotOk(m, h2, i2);
    var r := Swapped(m, h1, i1, h2, i2);
    forall h, i | r.Has(h, i) ensures SlotOk(r, h, i) {
      SwapKeepsSlotOk(m, h1, i1, h2, i2, h, i);
    }
    forall s | r.HasSlot(s) ensures IndOk(r, s) {
      SwapKeepsIndOk(m, h1, i1, h2, i2, s);
    }
    forall k | 0 <= k < |r.free| ensures FreeOk(r, k) { assert FreeOk(m, k); }
    HeapsFit(m);
    HeapsFit(r);
  }

  lemma SwapKeepsSlotOk(m: Mem, h1: HeapId, i1: int, h2: HeapId, i2: int, h: HeapId, i: int)
    requires MemInv(m) && CanSwap(m, h1, i1, h2, i2) && m.Has(h, i)
    ensures Swapped(m, h1, i1, h2, i2).Has(h, i) && SlotOk(Swapped(m, h1, i1, h2, i2), h, i)
  {
    SwapOutcome(m, h1, i1, h2, i2);
    assert SlotOk(m, h1, i1) && SlotOk(m, h2, i2) && SlotOk(m, h, i);
    var s := m.SlotAt(h, i);
    if s == m.SlotAt(h1, i1) { SlotsAreDistinct(m, h, i, h1, i1); }
    if s == m.SlotAt(h2, i2) { SlotsAreDistinct(m, h, i, h2, i2); }
    assert Swapped(m, h1, i1, h2, i2).SlotAt(h, i) == SlotAfterSwap(m, h1, i1, h2, i2, h, i);
  }

  lemma SwapKeepsIndOk(m: Mem, h1: HeapId, i1: int, h2: HeapId, i2: int, s: SlotId)
    requires MemInv(m) && CanSwap(m, h1, i1, h2, i2) && m.HasSlot(s)
    ensures Swapped(m, h1, i1, h2, i2).HasSlot(s) && IndOk(Swapped(m, h1, i1, h2, i2), s)
  {
    SwapOutcome(m, h1, i1, h2, i2);
    var r, s1, s2 := Swapped(m, h1, i1, h2, i2), m.SlotAt(h1, i1), m.SlotAt(h2, i2);
    assert IndOk(m, s) && SlotOk(m, h1, i1) && SlotOk(m, h2, i2);
    DecomposeIsInverse(i1, |m.heaps[h1].slots|);
    DecomposeIsInverse(i2, |m.heaps[h2].slots|);
    if s == s1 {
      assert r.Lane(s) == i2;
      assert r.SlotAt(h2, i2) == SlotAfterSwap(m, h1, i1, h2, i2, h2, i2);
    } else if s == s2 {
      assert r.Lane(s) == i1;
      assert r.SlotAt(h1, i1) == SlotAfterSwap(m, h1, i1, h2, i2, h1, i1);
    } else if m.inds[s].value.BlockOf? {
      var h := m.inds[s].value.heap;
      assert r.SlotAt(h, m.Lane(s)) == SlotAfterSwap(m, h1, i1, h2, i2, h, m.Lane(s));
    }
  }

  /** A handle follows its value: every handle reads the same before and after a swap, whichever slots
      were swapped. */
  lemma HandlesFollowValues(m: Mem, h1: HeapId, i1: int, h2: HeapId, i2: int, s: SlotId)
    requires MemInv(m) && m.Has(h1, i1) && m.Has(h2, i2) && m.HasSlot(s)
    ensures CanSwap(m, h1, i1, h2, i2)
    ensures Swapped(m, h1, i1, h2, i2).HasSlot(s)
    ensures Swapped(m, h1, i1, h2, i2).Deref(s) == m.Deref(s)
  {
    MemInvCanSwap(m, h1, i1, h2, i2);
    SwapOutcome(m, h1, i1, h2, i2);
    assert SlotOk(m, h1, i1) && SlotOk(m, h2, i2);
    var r := Swapped(m, h1, i1, h2, i2);
    if s == m.SlotAt(h1, i1) {
      SwapPosition(m, h1, i1, h2, i2, h2, i2);
      PointsAtGivesDeref(m, s, h1, i1);
      PointsAtGivesDeref(r, s, h2, i2);
    } else if s == m.SlotAt(h2, i2) {
      SwapPosition(m, h1, i1, h2, i2, h1, i1);
      PointsAtGivesDeref(m, s, h2, i2);
      PointsAtGivesDeref(r, s, h1, i1);
    } else {
      BystanderKeepsValue(m, h1, i1, h2, i2, s);
    }
  }

  lemma PointsAtGivesDeref(m: Mem, s: SlotId, h: HeapId, i: int)
    requires m.HasSlot(s) && m.inds[s].value == BlockOf(h, Major(i)) && m.inds[s].index == Minor(i)
    requires h in m.heaps && 0 <= i < |m.heaps[h].values|
    ensures m.Deref(s) == m.heaps[h].values[i]
  {
    DecomposeIsInverse(i, i + 1);
  }

  lemma BystanderKeepsValue(m: Mem, h1: HeapId, i1: int, h2: HeapId, i2: int, s: SlotId)
    requires MemInv(m) && CanSwap(m, h1, i1, h2, i2) && m.HasSlot(s)
    requires s != m.SlotAt(h1, i1) && s != m.SlotAt(h2, i2)
    ensures Swapped(m, h1, i1, h2, i2).HasSlot(s)
    ensures Swapped(m, h1, i1, h2, i2).Deref(s) == m.Deref(s)
  {
    SwapOutcome(m, h1, i1, h2, i2);
    assert IndOk(m, s);
    if m.inds[s].value.BlockOf? {
      SwapPosition(m, h1, i1, h2, i2, m.inds[s].value.heap, m.Lane(s));
    }
  }

  /** Everything a client may know of a swap: two slots change places, and every handle keeps its owner
      and reads the same value. */
  ghost predicate SwapRel(m: Mem, r: Mem, h1: HeapId, i1: int, h2: HeapId, i2: int) {
    && MemInv(r)
    && m.Has(h1, i1) && m.Has(h2, i2)
    && r.heaps.Keys == m.heaps.Keys && |r.inds| == |m.inds|
    && (forall h :: h in m.heaps ==> |r.heaps[h].slots| == |m.heaps[h].slots|)
    && (forall h, i {:trigger r.SlotAt(h, i)} :: m.Has(h, i) ==>
          r.Has(h, i) && r.SlotAt(h, i) == SlotAfterSwap(m, h1, i1, h2, i2, h, i))
    && (forall s {:trigger r.Owner(s)} :: m.HasSlot(s) ==> r.Owner(s) == m.Owner(s))
    && (forall s {:trigger r.Deref(s)} :: m.HasSlot(s) ==> r.Deref(s) == m.Deref(s))
  }

  lemma SwappedIsSwap(m: Mem, h1: HeapId, i1: int, h2: HeapId, i2: int)
    requires MemInv(m) && m.Has(h1, i1) && m.Has(h2, i2)
    ensures CanSwap(m, h1, i1, h2, i2) && SwapRel(m, Swapped(m, h1, i1, h2, i2), h1, i1, h2, i2)
  {
    SwapKeepsInv(m, h1, i1, h2, i2);
    SwapOutcome(m, h1, i1, h2, i2);
    forall s | m.HasSlot(s) ensures Swapped(m, h1, i1, h2, i2).HasSlot(s)
      && Swapped(m, h1, i1, h2, i2).Deref(s) == m.Deref(s)
    {
      HandlesFollowValues(m, h1, i1, h2, i2, s);
    }
  }

  // === Creating, writing and dropping === //

  /** Writing an owner and a value (or neither) through slot `i` of heap `h`. */
  function WithPair(m: Mem, h: HeapId, i: int, owner: Option<Entity>, v: Option<Value>): Mem
    requires m.Has(h, i) && m.HasSlot(m.SlotAt(h, i)) && i < |m.heaps[h].values|
  {
    var s := m.SlotAt(h, i);
    WithValue(WithInd(m, s, m.inds[s].(owner := owner)), h, i, v)
  }

  lemma WithPairKeepsInv(m: Mem, h: HeapId, i: int, owner: Option<Entity>, v: Option<Value>)
    requires MemInv(m) && m.Has(h, i)
    ensures m.HasSlot(m.SlotAt(h, i)) && i < |m.heaps[h].values|
    ensures var r, s := WithPair(m, h, i, owner, v), m.SlotAt(h, i);
      && MemInv(r)
      && r.Owner(s) == owner && r.Deref(s) == v
      && forall t :: m.HasSlot(t) && t != s ==> r.HasSlot(t) && r.Owner(t) == m.Owner(t) && r.Deref(t) == m.Deref(t)
  {
    DerefAt(m, h, i);
    assert SlotOk(m, h, i);
    var r, s := WithPair(m, h, i, owner, v), m.SlotAt(h, i);
    forall g, j | r.Has(g, j) ensures SlotOk(r, g, j) { assert SlotOk(m, g, j); }
    forall t | r.HasSlot(t) ensures IndOk(r, t) { assert IndOk(m, t); }
    forall k | 0 <= k < |r.free| ensures FreeOk(r, k) { assert FreeOk(m, k); }
    HeapsFit(m);
    HeapsFit(r);
    DerefAt(r, h, i);
    forall t | m.HasSlot(t) && t != s ensures r.Deref(t) == m.Deref(t) { assert IndOk(m, t); }
  }

  /** Everything a client may know of a write through one slot. */
  ghost predicate WriteRel(m: Mem, r: Mem, h: HeapId, i: int, owner: Option<Entity>, v: Option<Value>) {
    && MemInv(r)
    && m.Has(h, i) && m.HasSlot(m.SlotAt(h, i))
    && r.heaps.Keys == m.heaps.Keys && |r.inds| == |m.inds|
    && (forall g :: g in m.heaps ==> r.heaps[g].slots == m.heaps[g].slots)
    && r.Owner(m.SlotAt(h, i)) == owner && r.Deref(m.SlotAt(h, i)) == v
    && (forall s {:trigger r.Owner(s)} :: m.HasSlot(s) && s != m.SlotAt(h, i) ==> r.Owner(s) == m.Owner(s))
    && (forall s {:trigger r.Deref(s)} :: m.HasSlot(s) && s != m.SlotAt(h, i) ==> r.Deref(s) == m.Deref(s))
  }

  /** A new heap takes free indirectors and leaves every slot in use alone. */
  ghost predicate Created(m: Mem, r: Mem, h: HeapId, len: int) {
    && h !in m.heaps && h in r.heaps
    && r.heaps == m.heaps[h := r.heaps[h]]
    && |r.heaps[h].slots| == len
    && |m.inds| <= |r.inds|
    && (forall s :: m.HasSlot(s) && m.inds[s].value.BlockOf? ==> r.inds[s] == m.inds[s])
    && (forall s :: r.HasSlot(s) && r.inds[s].value.BlockOf? ==>
          r.inds[s].value.heap == h || (m.HasSlot(s) && m.inds[s] == r.inds[s]))
    && (forall s :: m.HasSlot(s) ==> r.Owner(s) == m.Owner(s))
    && (forall s :: r.HasSlot(s) && !m.HasSlot(s) ==> r.Owner(s) == None)
    && (forall i :: 0 <= i < len ==> r.HasSlot(r.SlotAt(h, i)) && r.Owner(r.SlotAt(h, i)) == None)
    && (forall v :: v in r.heaps[h].values ==> v == None)
  }

  /** Dropping a heap vacates exactly its own indirectors. */
  ghost predicate Dropped(m: Mem, r: Mem, h: HeapId) {
    && h in m.heaps && r.heaps == m.heaps - {h}
    && |r.inds| == |m.inds|
    && (forall s :: m.HasSlot(s) ==>
          r.inds[s] == if m.inds[s].value.BlockOf? && m.inds[s].value.heap == h then VACANT else m.inds[s])
  }

  lemma CreatedKeepsHandles(m: Mem, r: Mem, h: HeapId, len: int, s: SlotId)
    requires MemInv(m) && MemInv(r) && Created(m, r, h, len) && m.HasSlot(s)
    ensures r.HasSlot(s) && r.Owner(s) == m.Owner(s) && r.Deref(s) == m.Deref(s)
  {
    assert IndOk(m, s) && IndOk(r, s);
    if m.inds[s].value.EmptyBlock? && r.inds[s].value.BlockOf? {
      var g, i := r.inds[s].value.heap, r.Lane(s);
      DerefAt(r, g, i);
      assert r.heaps[h].values[i] in r.heaps[h].values;
    }
  }

  lemma DroppedKeepsHandles(m: Mem, r: Mem, h: HeapId, s: SlotId)
    requires MemInv(m) && MemInv(r) && Dropped(m, r, h) && m.HasSlot(s)
    requires m.inds[s].value.BlockOf? ==> m.inds[s].value.heap != h
    ensures r.HasSlot(s) && r.Owner(s) == m.Owner(s) && r.Deref(s) == m.Deref(s)
  {
    assert IndOk(m, s);
  }

  /** More indirectors were leaked, all of them free. */
  lemma LeakedKeepsInv(m: Mem, n: int)
    requires MemInv(m) && n >= 0
    ensures MemInv(m.(inds := m.inds + seq(n, _ => VACANT), free := m.free + seq(n, i => |m.inds| + i)))
  {
    var r := m.(inds := m.inds + seq(n, _ => VACANT), free := m.free + seq(n, i => |m.inds| + i));
    var count := |m.inds|;
    forall h, i | r.Has(h, i) ensures SlotOk(r, h, i) { assert SlotOk(m, h, i); }
    forall s | r.HasSlot(s) ensures IndOk(r, s) {
      if s < count { assert IndOk(m, s); } else { assert r.free[|m.free| + s - count] == s; }
    }
    forall k | 0 <= k < |r.free| ensures FreeOk(r, k) && (k < |m.free| ==> r.free[k] < count) {
      if k < |m.free| { assert FreeOk(m, k); }
    }
    HeapsFit(m);
    HeapsFit(r);
  }

  /** The slots in `done`, all of heap `h`, lost owner and value; nothing else changed. */
  ghost predicate Cleared(m: Mem, r: Mem, h: HeapId, done: seq<SlotId>) {
    && r.heaps.Keys == m.heaps.Keys && |r.inds| == |m.inds| && r.free == m.free
    && (forall g :: g in m.heaps && g != h ==> r.heaps[g] == m.heaps[g])
    && h in m.heaps && r.heaps[h].slots == m.heaps[h].slots
    && (forall s {:trigger r.inds[s]} :: m.HasSlot(s) ==>
          r.inds[s] == if s in done then m.inds[s].(owner := None) else m.inds[s])
    && (forall s {:trigger r.Deref(s)} :: m.HasSlot(s) ==> r.Deref(s) == if s in done then None else m.Deref(s))
  }

  /** All heaps of one component type, with the free indirectors they draw from. */
  class HeapSpace {
    var heaps: map<HeapId, Heap>
    var inds: seq<Indirector>
    var free: seq<SlotId>
    /** Addresses are never reused while a heap is live; a counter stands in for the allocator. */
    var nextHeap: HeapId

    ghost function State(): Mem
      reads this
    {
      Mem(heaps, inds, free)
    }

    ghost predicate Valid()
      reads this
    {
      MemInv(State()) && forall h :: h in heaps ==> h < nextHeap
    }

    constructor ()
      ensures Valid() && State() == Mem(map[], [], [])
    {
      heaps, inds, free, nextHeap := map[], [], [], 0;
    }

    /** Makes sure at least `len` indirectors are free, leaking new ones if not. */
    method Reserve(len: int)
      requires Valid() && len >= 0
      modifies this
      ensures Valid() && heaps == old(heaps) && nextHeap == old(nextHeap)
      ensures |free| >= len && old(inds) <= inds
      ensures |old(free)| >= len ==> inds == old(inds)
      ensures |old(free)| < len - 128 ==> |inds| - |old(inds)| == len - |old(free)|
      ensures len - 128 <= |old(free)| < len ==> |inds| - |old(inds)| == 128
      ensures forall s :: |old(inds)| <= s < |inds| ==> inds[s] == VACANT
    {
      if |free| < len {
        var additional := if len - |free| > 128 then len - |free| else 128;
        ghost var m := State();
        var count := |inds|;
        inds := inds + seq(additional, _ => VACANT);
        free := free + seq(additional, i => count + i);
        LeakedKeepsInv(m, additional);
      }
    }

    /** `Heap::new`. */
    method NewHeap(len: int) returns (h: HeapId)
      requires Valid() && len >= 0
      modifies this
      ensures Valid() && Created(old(State()), State(), h, len)
      ensures |old(free)| >= len ==> |inds| == |old(inds)|
      ensures |old(free)| < len - 128 ==> |inds| - |old(inds)| == len - |old(free)|
      ensures len - 128 <= |old(free)| < len ==> |inds| - |old(inds)| == 128
    {
      Reserve(len);
      ghost var m := State();
      h := TakeHeap(len);
      CreatedAfterReserve(old(State()), m, State(), h, len);
    }

    method TakeHeap(len: int) returns (h: HeapId)
      requires Valid() && 0 <= len <= |free|
      modifies this
      ensures Valid() && Created(old(State()), State(), h, len) && |inds| == |old(inds)|
    {
      ghost var m := State();
      HeapsFit(m);
      h := nextHeap;
      nextHeap := nextHeap + 1;
      var base := |free| - len;
      var drained := free[base..];
      forall k | 0 <= k < len ensures 0 <= drained[k] < |inds| && drained[k] == m.free[base + k] {
        assert FreeOk(m, base + k);
      }
      PointAt(drained, h);
      free := free[..base];
      heaps := heaps[h := Heap(seq(LANES * BlocksNeeded(len), _ => None), drained)];
      NewHeapKeepsInv(m, State(), h, len, base);
      NewHeapCreates(m, State(), h, len, base);
    }

    /** Points each of the given free indirectors at its lane of the new heap. */
    method PointAt(drained: seq<SlotId>, h: HeapId)
      requires forall k :: 0 <= k < |drained| ==> 0 <= drained[k] < |inds|
      requires forall i, j :: 0 <= i < j < |drained| ==> drained[i] != drained[j]
      modifies this`inds
      ensures |inds| == |old(inds)|
      ensures forall k :: 0 <= k < |drained| ==>
        inds[drained[k]] == Indirector(old(inds)[drained[k]].owner, BlockOf(h, Major(k)), Minor(k))
      ensures forall s :: 0 <= s < |inds| && s !in drained ==> inds[s] == old(inds)[s]
    {
      var i := 0;
      while i < |drained|
        invariant 0 <= i <= |drained| && |inds| == |old(inds)|
        invariant forall k :: 0 <= k < i ==>
          inds[drained[k]] == Indirector(old(inds)[drained[k]].owner, BlockOf(h, Major(k)), Minor(k))
        invariant forall k :: i <= k < |drained| ==> inds[drained[k]] == old(inds)[drained[k]]
        invariant forall s :: 0 <= s < |inds| && s !in drained ==> inds[s] == old(inds)[s]
      {
        var s := drained[i];
        inds := inds[s := inds[s].(value := BlockOf(h, Major(i)), index := Minor(i))];
        i := i + 1;
      }
    }

    /** `Heap::swap_slots`: the values first, then the indirectors, then the slots. */
    method SwapSlots(h1: HeapId, i1: int, h2: HeapId, i2: int)
      requires Valid() && State().Has(h1, i1) && State().Has(h2, i2)
      modifies this
      ensures Valid() && SwapRel(old(State()), State(), h1, i1, h2, i2)
    {
      ghost var m := State();
      SwappedIsSwap(m, h1, i1, h2, i2);
      SwapValues(h1, i1, h2, i2);
      ghost var m2 := State();
      var s1, s2 := heaps[h1].slots[i1], heaps[h2].slots[i2];
      var value1, value2 := inds[s1].value, inds[s2].value;
      inds := inds[s1 := inds[s1].(value := value2)];
      inds := inds[s2 := inds[s2].(value := value1)];
      var index1, index2 := inds[s1].index, inds[s2].index;
      inds := inds[s1 := inds[s1].(index := index2)];
      inds := inds[s2 := inds[s2].(index := index1)];
      heaps := heaps[h1 := heaps[h1].(slots := heaps[h1].slots[i1 := s2])];
      heaps := heaps[h2 := heaps[h2].(slots := heaps[h2].slots[i2 := s1])];
      assert inds == Swapped(m, h1, i1, h2, i2).inds;
    }

    /** `MultiOptRefCell::swap`: a cell swapped with itself keeps its value. */
    method SwapValues(h1: HeapId, i1: int, h2: HeapId, i2: int)
      requires h1 in heaps && 0 <= i1 < |heaps[h1].values| && h2 in heaps && 0 <= i2 < |heaps[h2].values|
      modifies this`heaps
      ensures State()
        == WithValue(WithValue(old(State()), h1, i1, old(heaps)[h2].values[i2]), h2, i2, old(heaps)[h1].values[i1])
    {
      if h1 == h2 && i1 == i2 {
        assert heaps[h1].values[i1 := heaps[h1].values[i1]] == heaps[h1].values;
        assert heaps[h1 := heaps[h1].(values := heaps[h1].values)] == heaps;
        return;
      }
      var v1 := heaps[h1].values[i1];
      SetValue(h1, i1, None);
      var v2 := heaps[h2].values[i2];
      SetValue(h2, i2, v1);
      SetValue(h1, i1, v2);
      ghost var was := old(heaps);
      if h1 == h2 {
        assert heaps[h1].values == was[h1].values[i1 := v2][i2 := v1];
      } else {
        assert heaps[h1].values == was[h1].values[i1 := v2];
      }
      assert heaps == WithValue(WithValue(old(State()), h1, i1, v2), h2, i2, v1).heaps;
    }

    method SetValue(h: HeapId, i: int, v: Option<Value>)
      requires h in heaps && 0 <= i < |heaps[h].values|
      modifies this`heaps
      ensures State() == WithValue(old(State()), h, i, v)
    {
      heaps := heaps[h := heaps[h].(values := heaps[h].values[i := v])];
    }

    /** `DirectSlot::set_value_owner_pair`: the owner, then the value; yields the old value. */
    method SetPair(h: HeapId, i: int, owner: Option<Entity>, v: Option<Value>) returns (was: Option<Value>)
      requires Valid() && State().Has(h, i)
      modifies this`heaps, this`inds
      ensures Valid()
      ensures WriteRel(old(State()), State(), h, i, owner, v)
      ensures forall s :: 0 <= s < |inds| && s != heaps[h].slots[i] ==> inds[s] == old(inds)[s]
      ensures inds[heaps[h].slots[i]] == old(inds)[heaps[h].slots[i]].(owner := owner)
      ensures forall g :: g in heaps && g != h ==> heaps[g] == old(heaps)[g]
      ensures was == old(State()).Deref(old(State()).SlotAt(h, i))
    {
      WithPairKeepsInv(State(), h, i, owner, v);
      DerefAt(State(), h, i);
      var s := heaps[h].slots[i];
      inds := inds[s := inds[s].(owner := owner)];
      was := heaps[h].values[i];
      SetValue(h, i, v);
    }

    /** Replaces the value of an occupied slot. */
    method Overwrite(h: HeapId, i: int, v: Value) returns (was: Option<Value>)
      requires Valid() && State().Has(h, i)
      modifies this`heaps, this`inds
      ensures Valid()
      ensures old(State()).HasSlot(old(State()).SlotAt(h, i))
      ensures WriteRel(old(State()), State(), h, i, old(State()).Owner(old(State()).SlotAt(h, i)), Some(v))
      ensures was == old(State()).Deref(old(State()).SlotAt(h, i))
    {
      assert SlotOk(State(), h, i);
      was := SetPair(h, i, inds[heaps[h].slots[i]].owner, Some(v));
    }

    /** `Slot::direct_slot`: the position a handle currently leads to. */
    method DirectSlot(s: SlotId) returns (h: HeapId, i: int)
      requires Valid() && State().HasSlot(s) && inds[s].value.BlockOf?
      ensures State().Has(h, i) && State().SlotAt(h, i) == s
    {
      assert IndOk(State(), s);
      h, i := inds[s].value.heap, LANES * inds[s].value.major + inds[s].index;
    }

    /** `Heap::clear_slots`. */
    method ClearSlots(h: HeapId)
      requires Valid() && h in heaps
      modifies this`heaps, this`inds
      ensures Valid() && Cleared(old(State()), State(), h, old(heaps)[h].slots)
    {
      ghost var m := State();
      for i := 0 to |heaps[h].slots|
        invariant Valid() && Cleared(m, State(), h, m.heaps[h].slots[..i])
      {
        ClearSlot(h, i, m);
      }
      assert m.heaps[h].slots[..|m.heaps[h].slots|] == m.heaps[h].slots;
    }

    method ClearSlot(h: HeapId, i: int, ghost m: Mem)
      requires Valid() && State().Has(h, i) && h in m.heaps && heaps[h].slots == m.heaps[h].slots
      requires Cleared(m, State(), h, m.heaps[h].slots[..i])
      modifies this`heaps, this`inds
      ensures Valid() && Cleared(m, State(), h, m.heaps[h].slots[..i + 1])
    {
      var _ := SetPair(h, i, None, None);
      assert m.heaps[h].slots[..i + 1] == m.heaps[h].slots[..i] + [m.heaps[h].slots[i]];
    }

    /** Dropping a heap: clear its slots, then return their indirectors. */
    method DropHeap(h: HeapId)
      requires Valid() && h in heaps
      modifies this
      ensures Valid() && Dropped(old(State()), State(), h)
    {
      ghost var m0 := State();
      ClearSlots(h);
      ghost var m := State();
      var slots := heaps[h].slots;
      var i := 0;
      while i < |slots|
        invariant 0 <= i <= |slots| && |inds| == |m.inds| && heaps == m.heaps && nextHeap == old(nextHeap)
        invariant free == m.free + slots[..i]
        invariant forall s :: 0 <= s < |inds| ==>
          inds[s] == if s in slots[..i] then m.inds[s].(value := EmptyBlock, index := 0) else m.inds[s]
      {
        var s := slots[i];
        assert s == m.SlotAt(h, i) && SlotOk(m, h, i);
        inds := inds[s := inds[s].(value := EmptyBlock, index := 0)];
        free := free + [s];
        assert slots[..i + 1] == slots[..i] + [s];
        i := i + 1;
      }
      assert slots[..i] == slots;
      heaps := heaps - {h};
      DropHeapFacts(m0, m, State(), h);
    }
  }

  /** A heap was made from the free indirectors from `base` on. */
  ghost predicate TookTail(m: Mem, r: Mem, h: HeapId, len: int, base: int) {
    && h !in m.heaps && 0 <= len <= |m.free| && base == |m.free| - len
    && r.free == m.free[..base] && |r.inds| == |m.inds|
    && r.heaps == m.heaps[h := Heap(seq(LANES * BlocksNeeded(len), _ => None), m.free[base..])]
    && (forall k :: 0 <= k < len ==>
          && m.HasSlot(m.free[base..][k])
          && r.inds[m.free[base..][k]] == Indirector(m.inds[m.free[base..][k]].owner, BlockOf(h, Major(k)), Minor(k)))
    && (forall s :: m.HasSlot(s) && s !in m.free[base..] ==> r.inds[s] == m.inds[s])
  }

  lemma TailWasVacant(m: Mem, r: Mem, h: HeapId, len: int, base: int, k: int)
    requires MemInv(m) && TookTail(m, r, h, len, base) && 0 <= k < len
    ensures var s := m.free[base..][k];
      m.HasSlot(s) && m.inds[s] == VACANT && r.inds[s] == Indirector(None, BlockOf(h, Major(k)), Minor(k))
  {
    assert m.free[base..][k] == m.free[base + k] && FreeOk(m, base + k);
  }

  lemma NewHeapSlotOk(m: Mem, r: Mem, h: HeapId, len: int, base: int, g: HeapId, i: int)
    requires MemInv(m) && TookTail(m, r, h, len, base) && r.Has(g, i)
    ensures SlotOk(r, g, i)
  {
    forall k | 0 <= k < len ensures m.inds[m.free[base..][k]] == VACANT { TailWasVacant(m, r, h, len, base, k); }
    if g == h {
      TailWasVacant(m, r, h, len, base, i);
    } else {
      assert m.Has(g, i) && SlotOk(m, g, i) && r.SlotAt(g, i) == m.SlotAt(g, i);
    }
  }

  lemma NewHeapIndOk(m: Mem, r: Mem, h: HeapId, len: int, base: int, s: SlotId)
    requires MemInv(m) && TookTail(m, r, h, len, base) && r.HasSlot(s)
    ensures IndOk(r, s)
  {
    assert IndOk(m, s);
    if k :| 0 <= k < len && m.free[base..][k] == s {
      TailWasVacant(m, r, h, len, base, k);
      DecomposeIsInverse(k, len);
      assert r.Lane(s) == k && r.SlotAt(h, k) == s;
    } else if m.inds[s].value.EmptyBlock? {
      assert m.free == m.free[..base] + m.free[base..];
    }
  }

  lemma NewHeapKeepsInv(m: Mem, r: Mem, h: HeapId, len: int, base: int)
    requires MemInv(m) && TookTail(m, r, h, len, base)
    ensures MemInv(r)
  {
    HeapsFit(m);
    HeapsFit(r);
    forall g, i | r.Has(g, i) ensures SlotOk(r, g, i) { NewHeapSlotOk(m, r, h, len, base, g, i); }
    forall s | r.HasSlot(s) ensures IndOk(r, s) { NewHeapIndOk(m, r, h, len, base, s); }
    forall k | 0 <= k < |r.free| ensures FreeOk(r, k) {
      assert FreeOk(m, k) && r.free[k] == m.free[k];
      forall j | 0 <= j < len ensures m.free[base..][j] != m.free[k] { assert m.free[base..][j] == m.free[base + j]; }
    }
  }

  lemma NewHeapCreates(m: Mem, r: Mem, h: HeapId, len: int, base: int)
    requires MemInv(m) && TookTail(m, r, h, len, base)
    ensures Created(m, r, h, len)
  {
    var drained := m.free[base..];
    forall k | 0 <= k < len
      ensures m.HasSlot(drained[k]) && m.inds[drained[k]] == VACANT && r.inds[drained[k]].owner == None
    {
      TailWasVacant(m, r, h, len, base, k);
    }
  }

  lemma CreatedAfterReserve(m0: Mem, m: Mem, r: Mem, h: HeapId, len: int)
    requires m.heaps == m0.heaps && m0.inds <= m.inds
    requires forall s :: |m0.inds| <= s < |m.inds| ==> m.inds[s] == VACANT
    requires Created(m, r, h, len)
    ensures Created(m0, r, h, len)
  {
  }

  lemma SameWithout(a: map<HeapId, Heap>, b: map<HeapId, Heap>, h: HeapId)
    requires a.Keys == b.Keys && forall g :: g in a && g != h ==> a[g] == b[g]
    ensures a - {h} == b - {h}
  {
    forall g | g in a - {h} ensures g in b - {h} && (a - {h})[g] == (b - {h})[g] {
      assert g in a.Keys && g in b.Keys;
    }
    forall g | g in b - {h} ensures g in a - {h} {
      assert g in b.Keys && g in a.Keys;
    }
  }

  lemma DropHeapFacts(m0: Mem, m: Mem, r: Mem, h: HeapId)
    requires MemInv(m0) && MemInv(m) && h in m.heaps
    requires m0.heaps.Keys == m.heaps.Keys && |m0.inds| == |m.inds| == |r.inds|
    requires forall g :: g in m.heaps && g != h ==> m.heaps[g] == m0.heaps[g]
    requires m.heaps[h].slots == m0.heaps[h].slots
    requires r.heaps == m.heaps - {h} && r.free == m.free + m.heaps[h].slots
    requires forall s :: m.HasSlot(s) ==>
      && m.inds[s] == (if s in m.heaps[h].slots then m0.inds[s].(owner := None) else m0.inds[s])
      && r.inds[s] == if s in m.heaps[h].slots then m.inds[s].(value := EmptyBlock, index := 0) else m.inds[s]
    ensures MemInv(r) && Dropped(m0, r, h)
  {
    var slots := m.heaps[h].slots;
    forall s | m.HasSlot(s) ensures s in slots <==> m.inds[s].value.BlockOf? && m.inds[s].value.heap == h {
      assert IndOk(m, s);
      if s in slots {
        var i :| 0 <= i < |slots| && slots[i] == s;
        assert SlotOk(m, h, i) && m.SlotAt(h, i) == s;
      }
    }
    forall s | s in slots ensures m.HasSlot(s) {
      var i :| 0 <= i < |slots| && slots[i] == s;
      assert SlotOk(m, h, i) && m.SlotAt(h, i) == s;
    }
    forall g, i | r.Has(g, i) ensures SlotOk(r, g, i) {
      assert m.Has(g, i) && SlotOk(m, g, i) && r.SlotAt(g, i) == m.SlotAt(g, i);
    }
    forall s | r.HasSlot(s) ensures IndOk(r, s) { assert IndOk(m, s); }
    forall k | 0 <= k < |r.free| ensures FreeOk(r, k) {
      if k < |m.free| {
        assert FreeOk(m, k) && r.free[k] == m.free[k];
      } else {
        assert r.free[k] == slots[k - |m.free|] && slots[k - |m.free|] in slots;
      }
    }
    SameWithout(m.heaps, m0.heaps, h);
    HeapsFit(m);
    HeapsFit(r);
    forall i, j | 0 <= i < j < |r.free| ensures r.free[i] != r.free[j] {
      if |m.free| <= i {
        var a, b := i - |m.free|, j - |m.free|;
        assert m.SlotAt(h, a) == r.free[i] && m.SlotAt(h, b) == r.free[j];
        if r.free[i] == r.free[j] { SlotsAreDistinct(m, h, a, h, b); }
      } else if |m.free| <= j {
        assert FreeOk(m, i) && r.free[i] == m.free[i];
        assert r.free[j] == slots[j - |m.free|];
      }
    }
  }
}
