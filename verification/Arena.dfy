/** The generational free-list arena (`src/util/arena.rs`). Plain ("ABA") pointers are indices that
    are reused after a deallocation; checked pointers also carry the slot's generation. */
module Arena {
  import opened Iters

  type Ptr = int

  const U32_MAX: nat := 0xFFFF_FFFF

  datatype Cell<+T> = Cell(gen: nat, value: Option<T>)

  /** A pointer is live exactly if its cell has a value, and then it is that value. */
  ghost predicate CellFits<T>(cells: seq<Cell<T>>, live: map<Ptr, T>, p: Ptr) {
    && (p in live <==> 0 <= p < |cells| && cells[p].value.Some?)
    && (p in live ==> cells[p].value == Some(live[p]))
    && (0 <= p < |cells| ==> 1 <= cells[p].gen <= U32_MAX)
  }

  /** The free list has vacant cells, each once. */
  ghost predicate FreeFits<T>(cells: seq<Cell<T>>, free: seq<Ptr>, i: int)
    requires 0 <= i < |free|
  {
    0 <= free[i] < |cells| && cells[free[i]].value.None? && forall j :: 0 <= j < i ==> free[j] != free[i]
  }

  ghost predicate ArenaInv<T>(cells: seq<Cell<T>>, free: seq<Ptr>, live: map<Ptr, T>) {
    && (forall p {:trigger CellFits(cells, live, p)} :: CellFits(cells, live, p))
    && (forall i {:trigger FreeFits(cells, free, i)} :: 0 <= i < |free| ==> FreeFits(cells, free, i))
  }

  lemma ArenaInvIff<T>(cells: seq<Cell<T>>, free: seq<Ptr>, live: map<Ptr, T>)
    ensures ArenaInv(cells, free, live) <==>
      && (forall p :: p in live <==> 0 <= p < |cells| && cells[p].value.Some?)
      && (forall p :: p in live ==> cells[p].value == Some(live[p]))
      && (forall i :: 0 <= i < |free| ==> 0 <= free[i] < |cells| && cells[free[i]].value.None?)
      && (forall i, j :: 0 <= i < j < |free| ==> free[i] != free[j])
      && (forall p :: 0 <= p < |cells| ==> 1 <= cells[p].gen <= U32_MAX)
  {
    if ArenaInv(cells, free, live) {
      forall p
        ensures p in live <==> 0 <= p < |cells| && cells[p].value.Some?
        ensures p in live ==> cells[p].value == Some(live[p])
        ensures 0 <= p < |cells| ==> 1 <= cells[p].gen <= U32_MAX
      {
        assert CellFits(cells, live, p);
      }
      forall i | 0 <= i < |free|
        ensures 0 <= free[i] < |cells| && cells[free[i]].value.None? && forall j :: 0 <= j < i ==> free[j] != free[i]
      {
        assert FreeFits(cells, free, i);
      }
    }
  }

  /** No slot got another generation, so pointers handed out before are still told from those to come. */
  ghost predicate SameGens<T>(before: seq<Cell<T>>, after: seq<Cell<T>>) {
    |after| == |before| && forall p :: 0 <= p < |before| ==> after[p].gen == before[p].gen
  }

  predicate Exhausted<T>(cells: seq<Cell<T>>, p: Ptr) {
    0 <= p < |cells| && cells[p].gen == U32_MAX
  }

  /** Without free cells, a new one is added at the end. */
  lemma AppendedKeepsInv<T>(cells: seq<Cell<T>>, live: map<Ptr, T>, value: T)
    requires ArenaInv(cells, [], live)
    ensures |cells| !in live && ArenaInv(cells + [Cell(1, Some(value))], [], live[|cells| := value])
  {
    ArenaInvIff(cells, [], live);
    ArenaInvIff(cells + [Cell(1, Some(value))], [], live[|cells| := value]);
  }

  /** A free cell may be forgotten. */
  lemma ForgottenKeepsInv<T>(cells: seq<Cell<T>>, free: seq<Ptr>, live: map<Ptr, T>, ptr: Ptr)
    requires ArenaInv(cells, free + [ptr], live)
    ensures ArenaInv(cells, free, live)
  {
    forall i | 0 <= i < |free| ensures FreeFits(cells, free, i) {
      assert FreeFits(cells, free + [ptr], i);
      forall j | 0 <= j <= i ensures (free + [ptr])[j] == free[j] {
      }
    }
  }

  /** The last free cell is reused under its next generation. */
  lemma ReusedKeepsInv<T>(cells: seq<Cell<T>>, free: seq<Ptr>, live: map<Ptr, T>, ptr: Ptr, value: T)
    requires ArenaInv(cells, free + [ptr], live)
    ensures 0 <= ptr < |cells| && ptr !in live
    ensures cells[ptr].gen < U32_MAX ==>
      ArenaInv(cells[ptr := Cell(cells[ptr].gen + 1, Some(value))], free, live[ptr := value])
  {
    ForgottenKeepsInv(cells, free, live, ptr);
    assert FreeFits(cells, free + [ptr], |free|) && CellFits(cells, live, ptr);
    if cells[ptr].gen < U32_MAX {
      var cells', live' := cells[ptr := Cell(cells[ptr].gen + 1, Some(value))], live[ptr := value];
      forall p ensures CellFits(cells', live', p) {
        assert CellFits(cells, live, p);
      }
      forall i | 0 <= i < |free| ensures FreeFits(cells', free, i) {
        assert FreeFits(cells, free, i) && (free + [ptr])[i] == free[i];
      }
    }
  }

  class FreeListArena<T> {
    var free: seq<Ptr>
    var cells: seq<Cell<T>>
    ghost var live: map<Ptr, T>

    ghost predicate Valid()
      reads this
    {
      ArenaInv(cells, free, live)
    }

    constructor ()
      ensures Valid() && live == map[]
    {
      free, cells, live := [], [], map[];
    }

    /** Allocates a pointer no live value has. The generation it is stamped with is new for its slot,
        so a checked pointer is never issued twice. */
    method Alloc(value: T) returns (ptr: Ptr, gen: nat)
      requires Valid()
      modifies this
      ensures Valid()
      ensures ptr !in old(live) && live == old(live)[ptr := value]
      ensures 0 <= ptr < |cells| && cells[ptr].gen == gen
      ensures |old(cells)| <= |cells|
      ensures forall p: Ptr :: 0 <= p < |old(cells)| && p != ptr ==> cells[p] == old(cells)[p]
      ensures 0 <= ptr < |old(cells)| ==> gen == old(cells)[ptr].gen + 1
      ensures ptr >= |old(cells)| ==> ptr == |old(cells)| && gen == 1
      // The slot freed last is reused, unless its generations have been used up.
      ensures free <= old(free) && (ptr < |old(cells)| ==> |free| < |old(free)| && old(free)[|free|] == ptr)
      ensures ptr == |old(cells)| ==> free == [] && forall p :: p in old(free) ==> Exhausted(old(cells), p)
      ensures forall i :: |free| < i < |old(free)| ==> Exhausted(old(cells), old(free)[i])
    {
      while true
        invariant Valid() && live == old(live) && cells == old(cells)
        invariant free <= old(free) && forall i :: |free| <= i < |old(free)| ==> Exhausted(old(cells), old(free)[i])
        decreases |free|
      {
        if |free| == 0 {
          AppendedKeepsInv(cells, live, value);
          ptr, gen := |cells|, 1;
          cells := cells + [Cell(1, Some(value))];
          live := live[ptr := value];
          return;
        }
        ptr := free[|free| - 1];
        assert free == free[..|free| - 1] + [ptr];
        free := free[..|free| - 1];
        ReusedKeepsInv(cells, free, live, ptr, value);
        if cells[ptr].gen < U32_MAX {
          gen := cells[ptr].gen + 1;
          cells := cells[ptr := Cell(gen, Some(value))];
          live := live[ptr := value];
          return;
        }
        ForgottenKeepsInv(cells, free, live, ptr);
        assert CellFits(cells, live, ptr) && old(free)[|free|] == ptr;
        // Forget about this slot: its generations have been used up.
      }
    }

    function Get(ptr: Ptr): (value: T)
      requires Valid() && ptr in live
      reads this
      ensures value == live[ptr]
    {
      assert CellFits(cells, live, ptr);
      cells[ptr].value.value
    }

    method Set(ptr: Ptr, value: T)
      requires Valid() && ptr in live
      modifies this
      ensures Valid() && live == old(live)[ptr := value]
      ensures free == old(free) && SameGens(old(cells), cells)
    {
      ArenaInvIff(cells, free, live);
      cells := cells[ptr := cells[ptr].(value := Some(value))];
      live := live[ptr := value];
      ArenaInvIff(cells, free, live);
    }

    method Dealloc(ptr: Ptr) returns (taken: T)
      requires Valid() && ptr in live
      modifies this
      ensures Valid() && taken == old(live)[ptr] && live == old(live) - {ptr}
      ensures free == old(free) + [ptr] && SameGens(old(cells), cells)
    {
      ArenaInvIff(cells, free, live);
      taken := cells[ptr].value.value;
      cells := cells[ptr := cells[ptr].(value := None)];
      free := free + [ptr];
      live := live - {ptr};
      ArenaInvIff(cells, free, live);
    }
  }
}
