/** The block allocator of anonymous component slots (`src/util/block.rs`). */
module Masks {
  const BITS: int := 128

  /** A `u128` occupancy mask, as its bits from the lowest up. */
  type Mask = m: seq<bool> | |m| == BITS witness seq(BITS, _ => false)

  function EmptyMask(): Mask { seq(BITS, _ => false) }

  /** The occupied slots. */
  ghost function Ones(m: Mask): set<int> {
    set i | 0 <= i < BITS && m[i]
  }

  predicate IsEmpty(m: Mask) {
    forall i :: 0 <= i < BITS ==> !m[i]
  }

  ghost predicate IsFull(m: Mask) {
    forall i :: 0 <= i < BITS ==> m[i]
  }

  /** `trailing_ones`: the position of the lowest zero bit, or 128 on a full mask. */
  method TrailingOnes(m: Mask) returns (i: int)
    ensures 0 <= i <= BITS
    ensures forall j :: 0 <= j < i ==> m[j]
    ensures i < BITS ==> !m[i]
  {
    i := 0;
    while i < BITS && m[i]
      invariant 0 <= i <= BITS
      invariant forall j :: 0 <= j < i ==> m[j]
    {
      i := i + 1;
    }
  }

  lemma OnesAfterUpdate(m: Mask, i: int, bit: bool)
    requires 0 <= i < BITS
    ensures Ones(m[i := bit]) == if bit then Ones(m) + {i} else Ones(m) - {i}
  {
  }

  lemma EmptyIff(m: Mask)
    ensures IsEmpty(m) <==> Ones(m) == {}
  {
    if Ones(m) == {} {
      forall i | 0 <= i < BITS ensures !m[i] { assert i !in Ones(m); }
    }
  }
}

module Blocks {
  import opened Iters
  import opened Arena
  import opened Heaps
  import opened Masks

  type BlockId = Ptr

  /** No list index takes this value (`usize::MAX` in the source). */
  const HAMMERED_OR_FULL: int := -1

  datatype Block = Block(value: HeapId, nonFullIndex: int, mask: Mask)

  /** A block as its clients see it: its heap and the slots handed out. */
  datatype Lot = Lot(heap: HeapId, taken: set<int>)

  ghost function LotsOf(live: map<BlockId, Block>): map<BlockId, Lot> {
    map b | b in live :: Lot(live[b].value, Ones(live[b].mask))
  }

  /** Every block is exactly one of: the hammered one, full, or listed at its stored index. Only the
      hammered block may be empty. */
  ghost predicate BlockOk(live: map<BlockId, Block>, hammered: Option<BlockId>, nonFull: seq<BlockId>, b: BlockId)
    requires b in live
  {
    var block := live[b];
    if block.nonFullIndex == HAMMERED_OR_FULL then
      (hammered == Some(b)) != IsFull(block.mask)
    else
      && 0 <= block.nonFullIndex < |nonFull| && nonFull[block.nonFullIndex] == b
      && hammered != Some(b) && !IsFull(block.mask) && !IsEmpty(block.mask)
  }

  ghost predicate BlocksInv(live: map<BlockId, Block>, hammered: Option<BlockId>, nonFull: seq<BlockId>) {
    && (forall b {:trigger BlockOk(live, hammered, nonFull, b)} :: b in live ==> BlockOk(live, hammered, nonFull, b))
    && (forall i :: 0 <= i < |nonFull| ==> nonFull[i] in live && live[nonFull[i]].nonFullIndex == i)
    && (hammered.Some? ==> hammered.value in live && live[hammered.value].nonFullIndex == HAMMERED_OR_FULL)
  }

  // === One block at a time === //

  lemma HammerListed(live: map<BlockId, Block>, nonFull: seq<BlockId>)
    requires BlocksInv(live, None, nonFull) && |nonFull| > 0
    ensures var b := nonFull[|nonFull| - 1];
      BlocksInv(live[b := live[b].(nonFullIndex := HAMMERED_OR_FULL)], Some(b), nonFull[..|nonFull| - 1])
  {
    var b := nonFull[|nonFull| - 1];
    var live', nonFull' := live[b := live[b].(nonFullIndex := HAMMERED_OR_FULL)], nonFull[..|nonFull| - 1];
    assert BlockOk(live, None, nonFull, b);
    forall c | c in live' ensures BlockOk(live', Some(b), nonFull', c) { assert BlockOk(live, None, nonFull, c); }
  }

  lemma HammerNew(live: map<BlockId, Block>, b: BlockId, heap: HeapId)
    requires BlocksInv(live, None, []) && b !in live
    ensures BlocksInv(live[b := Block(heap, HAMMERED_OR_FULL, EmptyMask())], Some(b), [])
  {
    var live' := live[b := Block(heap, HAMMERED_OR_FULL, EmptyMask())];
    assert !EmptyMask()[0];
    forall c | c in live' ensures BlockOk(live', Some(b), [], c) {
      if c != b { assert BlockOk(live, None, [], c); }
    }
  }

  /** Without a hammered or a listed block every block is full. */
  lemma AllAreFull(live: map<BlockId, Block>)
    requires BlocksInv(live, None, [])
    ensures forall b, i :: b in LotsOf(live) && 0 <= i < BITS ==> i in LotsOf(live)[b].taken
  {
    forall b | b in live ensures IsFull(live[b].mask) { assert BlockOk(live, None, [], b); }
  }

  /** Taking a slot of the hammered block, which stops being hammered once it is full. */
  lemma TakeKeepsInv(live: map<BlockId, Block>, b: BlockId, nonFull: seq<BlockId>, mask: Mask)
    requires BlocksInv(live, Some(b), nonFull)
    ensures BlocksInv(live[b := live[b].(mask := mask)], if IsFull(mask) then None else Some(b), nonFull)
  {
    var live', hammered := live[b := live[b].(mask := mask)], if IsFull(mask) then None else Some(b);
    forall c | c in live' ensures BlockOk(live', hammered, nonFull, c) { assert BlockOk(live, Some(b), nonFull, c); }
  }

  /** A full block that loses a slot is listed again. */
  lemma RelistKeepsInv(live: map<BlockId, Block>, hammered: Option<BlockId>, nonFull: seq<BlockId>, b: BlockId,
                       mask: Mask)
    requires BlocksInv(live, hammered, nonFull) && b in live && IsFull(live[b].mask)
    requires !IsFull(mask) && !IsEmpty(mask)
    ensures BlocksInv(live[b := live[b].(mask := mask, nonFullIndex := |nonFull|)], hammered, nonFull + [b])
  {
    assert BlockOk(live, hammered, nonFull, b);
    var live' := live[b := live[b].(mask := mask, nonFullIndex := |nonFull|)];
    forall c | c in live' ensures BlockOk(live', hammered, nonFull + [b], c) {
      assert BlockOk(live, hammered, nonFull, c);
    }
  }

  lemma ReleaseKeepsInv(live: map<BlockId, Block>, hammered: Option<BlockId>, nonFull: seq<BlockId>, b: BlockId,
                        mask: Mask)
    requires BlocksInv(live, hammered, nonFull) && b in live && !IsFull(live[b].mask) && !IsFull(mask)
    requires IsEmpty(mask) ==> live[b].nonFullIndex == HAMMERED_OR_FULL
    ensures BlocksInv(live[b := live[b].(mask := mask)], hammered, nonFull)
  {
    assert BlockOk(live, hammered, nonFull, b);
    var live' := live[b := live[b].(mask := mask)];
    forall c | c in live' ensures BlockOk(live', hammered, nonFull, c) { assert BlockOk(live, hammered, nonFull, c); }
  }

  function SwapRemoved(s: seq<BlockId>, i: int): seq<BlockId>
    requires 0 <= i < |s|
  {
    s[i := s[|s| - 1]][..|s| - 1]
  }

  /** Unlisting a block by swap-remove: the perturbed block's stored index follows it. */
  function Unlisted(live: map<BlockId, Block>, nonFull: seq<BlockId>, b: BlockId): map<BlockId, Block>
    requires b in live && 0 <= live[b].nonFullIndex < |nonFull| && nonFull[|nonFull| - 1] in live
  {
    var i := live[b].nonFullIndex;
    var rest := SwapRemoved(nonFull, i);
    if i < |rest| && rest[i] != b then (live - {b})[rest[i] := live[rest[i]].(nonFullIndex := i)] else live - {b}
  }

  lemma UnlistedKeepsInv(live: map<BlockId, Block>, hammered: Option<BlockId>, nonFull: seq<BlockId>, b: BlockId)
    requires BlocksInv(live, hammered, nonFull) && b in live && live[b].nonFullIndex != HAMMERED_OR_FULL
    ensures 0 <= live[b].nonFullIndex < |nonFull|
    ensures var i, rest := live[b].nonFullIndex, SwapRemoved(nonFull, live[b].nonFullIndex);
      && (i < |rest| ==> rest[i] in live && rest[i] != b)
      && BlocksInv(Unlisted(live, nonFull, b), hammered, rest)
      && LotsOf(Unlisted(live, nonFull, b)) == LotsOf(live) - {b}
  {
    assert BlockOk(live, hammered, nonFull, b);
    var i, rest, live' := live[b].nonFullIndex, SwapRemoved(nonFull, live[b].nonFullIndex), Unlisted(live, nonFull, b);
    var last := nonFull[|nonFull| - 1];
    assert i < |rest| ==> last != b && rest[i] == last;
    forall c | c in live' ensures BlockOk(live', hammered, rest, c) {
      assert BlockOk(live, hammered, nonFull, c);
    }
    forall k | 0 <= k < |rest| ensures rest[k] in live' && live'[rest[k]].nonFullIndex == k {
      if k != i {
        assert rest[k] == nonFull[k];
      }
    }
  }

  class BlockAllocator {
    const blocks: FreeListArena<Block>
    var hammered: Option<BlockId>
    var nonFull: seq<BlockId>

    ghost function Lots(): map<BlockId, Lot>
      reads blocks
    {
      LotsOf(blocks.live)
    }

    ghost predicate Valid()
      reads this, blocks
    {
      blocks.Valid() && BlocksInv(blocks.live, hammered, nonFull)
    }

    constructor ()
      ensures Valid() && fresh(blocks) && Lots() == map[]
    {
      blocks := new FreeListArena<Block>();
      hammered, nonFull := None, [];
    }

    /** Makes a block the hammered one: the last listed block, or a new one around a new heap. */
    method Hammer(space: HeapSpace) returns (b: BlockId)
      requires Valid() && space.Valid() && hammered.None?
      modifies this, blocks, space
      ensures Valid() && space.Valid() && hammered == Some(b) && b in blocks.live
      ensures b in old(blocks.live) ==> space.State() == old(space.State()) && Lots() == old(Lots())
      ensures b !in old(blocks.live) ==>
        && Created(old(space.State()), space.State(), blocks.live[b].value, BITS)
        && Lots() == old(Lots())[b := Lot(blocks.live[b].value, {})]
      ensures if old(nonFull) == [] then b !in old(blocks.live) else b == old(nonFull)[|old(nonFull)| - 1]
    {
      if |nonFull| > 0 {
        HammerListed(blocks.live, nonFull);
        b := nonFull[|nonFull| - 1];
        nonFull := nonFull[..|nonFull| - 1];
        blocks.Set(b, blocks.Get(b).(nonFullIndex := HAMMERED_OR_FULL));
      } else {
        var heap := space.NewHeap(BITS);
        var p, _ := blocks.Alloc(Block(heap, HAMMERED_OR_FULL, EmptyMask()));
        b := p;
        HammerNew(old(blocks.live), b, heap);
        EmptyIff(EmptyMask());
      }
      hammered := Some(b);
    }

    /** Reserves the lowest free slot of the hammered block. */
    method Alloc(space: HeapSpace) returns (b: BlockId, slot: int)
      requires Valid() && space.Valid()
      modifies this, blocks, space
      ensures Valid() && space.Valid()
      ensures 0 <= slot < BITS && b in Lots()
      ensures b in old(Lots()) ==>
        && slot !in old(Lots())[b].taken
        && space.State() == old(space.State())
        && Lots() == old(Lots())[b := Lot(old(Lots())[b].heap, old(Lots())[b].taken + {slot})]
      ensures b !in old(Lots()) ==>
        && Created(old(space.State()), space.State(), Lots()[b].heap, BITS)
        && Lots() == old(Lots())[b := Lot(Lots()[b].heap, {slot})]
      // The hammered block or else the one listed last, its lowest free slot; a new block only if all are full.
      ensures old(hammered).Some? ==> b == old(hammered).value
      ensures old(hammered).None? && old(nonFull) != [] ==> b == old(nonFull)[|old(nonFull)| - 1]
      ensures forall i :: 0 <= i < slot ==> i in Lots()[b].taken
      ensures b !in old(Lots()) ==> forall c, i :: c in old(Lots()) && 0 <= i < BITS ==> i in old(Lots())[c].taken
    {
      if hammered.None? && nonFull == [] {
        AllAreFull(blocks.live);
      }
      if hammered.Some? {
        b := hammered.value;
      } else {
        b := Hammer(space);
      }
      assert BlockOk(blocks.live, hammered, nonFull, b);
      ghost var hammeredLots := Lots();
      slot := Take(b);
      assert hammeredLots[b].taken == {} ==> hammeredLots[b].taken + {slot} == {slot};
    }

    /** `block`: the heap of a block. */
    function BlockHeap(b: BlockId): (heap: HeapId)
      requires Valid() && b in Lots()
      reads this, blocks
      ensures heap == Lots()[b].heap
    {
      blocks.Get(b).value
    }

    /** Marks the lowest free slot of the hammered block as occupied. */
    method Take(b: BlockId) returns (slot: int)
      requires Valid() && hammered == Some(b) && !IsFull(blocks.live[b].mask)
      modifies this, blocks
      ensures Valid() && 0 <= slot < BITS
      ensures b in old(Lots()) && slot !in old(Lots())[b].taken
      ensures Lots() == old(Lots())[b := Lot(old(Lots())[b].heap, old(Lots())[b].taken + {slot})]
      ensures forall i :: 0 <= i < slot ==> i in Lots()[b].taken
    {
      var block := blocks.Get(b);
      slot := TrailingOnes(block.mask);
      OnesAfterUpdate(block.mask, slot, true);
      var mask := block.mask[slot := true];
      TakeKeepsInv(blocks.live, b, nonFull, mask);
      blocks.Set(b, block.(mask := mask));
      var ones := TrailingOnes(mask);
      if ones == BITS {
        hammered := None;
      }
    }

    /** Releases a reservation. A block that becomes empty is destroyed with its heap, unless it is the
        hammered one. */
    method Dealloc(b: BlockId, slot: int, space: HeapSpace) returns (ghost destroyed: bool)
      requires Valid() && space.Valid()
      requires b in Lots() && slot in Lots()[b].taken && Lots()[b].heap in space.heaps
      modifies this, blocks, space
      ensures Valid() && space.Valid()
      ensures destroyed ==>
        && old(Lots())[b].taken == {slot} && hammered != Some(b)
        && Lots() == old(Lots()) - {b}
        && Dropped(old(space.State()), space.State(), old(Lots())[b].heap)
      ensures !destroyed ==>
        && Lots() == old(Lots())[b := Lot(old(Lots())[b].heap, old(Lots())[b].taken - {slot})]
        && (Lots()[b].taken == {} ==> hammered == Some(b))
        && space.State() == old(space.State())
      ensures hammered == old(hammered)
      ensures (forall i :: 0 <= i < BITS ==> i in old(Lots())[b].taken) ==> nonFull == old(nonFull) + [b]
    {
      var block := blocks.Get(b);
      assert BlockOk(blocks.live, hammered, nonFull, b);
      var oldOnes := TrailingOnes(block.mask);
      assert oldOnes < BITS ==> oldOnes !in Lots()[b].taken;
      var mask := block.mask[slot := false];
      OnesAfterUpdate(block.mask, slot, false);
      EmptyIff(mask);
      destroyed := false;
      if oldOnes == BITS {
        // The block was full, so it was not the hammered one, and it still has other slots taken.
        assert mask[if slot == 0 then 1 else 0];
        RelistKeepsInv(blocks.live, hammered, nonFull, b, mask);
        blocks.Set(b, block.(mask := mask, nonFullIndex := |nonFull|));
        nonFull := nonFull + [b];
      } else if IsEmpty(mask) && block.nonFullIndex != HAMMERED_OR_FULL {
        destroyed := true;
        Destroy(b, space);
      } else {
        ReleaseKeepsInv(blocks.live, hammered, nonFull, b, mask);
        blocks.Set(b, block.(mask := mask));
      }
    }

    method Destroy(b: BlockId, space: HeapSpace)
      requires Valid() && space.Valid()
      requires b in blocks.live && blocks.live[b].value in space.heaps
      requires blocks.live[b].nonFullIndex != HAMMERED_OR_FULL
      modifies this, blocks, space
      ensures Valid() && space.Valid() && hammered == old(hammered)
      ensures Lots() == old(Lots()) - {b}
      ensures Dropped(old(space.State()), space.State(), old(blocks.live)[b].value)
    {
      UnlistedKeepsInv(blocks.live, hammered, nonFull, b);
      var block := blocks.Dealloc(b);
      var i := block.nonFullIndex;
      nonFull := SwapRemoved(nonFull, i);
      if i < |nonFull| {
        blocks.Set(nonFull[i], blocks.Get(nonFull[i]).(nonFullIndex := i));
      }
      space.DropHeap(block.value);
    }
  }
}
