/** Merging, de-duplicating and filtering peekable iterators, and comparing two of them
    (`src/util/iter.rs`). The set map builds its key lists with these, and a flush uses them to
    walk the component types of two archetypes at once. */
module Iters {

  datatype Option<+T> = None | Some(value: T)

  predicate Ascending(s: seq<int>) {
    forall i, j :: 0 <= i < j < |s| ==> s[i] < s[j]
  }

  predicate Sorted(s: seq<int>) {
    forall i, j :: 0 <= i < j < |s| ==> s[i] <= s[j]
  }

  function Elems<T>(s: seq<T>): set<T> {
    set x | x in s
  }

  /** The next element in the iteration order of a hashed collection, which may be any order. */
  method AnyOf<T(==)>(s: set<T>) returns (x: T)
    requires s != {}
    ensures x in s
  {
    x :| x in s;
  }

  /** All elements of a hashed collection, in its iteration order, which may be any order. */
  method InAnyOrder<T(==)>(s: set<T>) returns (order: seq<T>)
    ensures Elems(order) == s && forall i, j :: 0 <= i < j < |order| ==> order[i] != order[j]
  {
    var rest := s;
    order := [];
    while rest != {}
      invariant rest <= s && Elems(order) == s - rest
      invariant forall i, j :: 0 <= i < j < |order| ==> order[i] != order[j]
      decreases rest
    {
      var x := AnyOf(rest);
      assert x !in Elems(order);
      ElemsSnoc(order, x);
      order := order + [x];
      rest := rest - {x};
    }
  }

  lemma SomeElement<T>(s: set<T>) returns (x: T)
    requires s != {}
    ensures x in s
  {
    x :| x in s;
  }

  lemma ElemsSnoc<T>(s: seq<T>, x: T)
    ensures Elems(s + [x]) == Elems(s) + {x}
  {
    forall y | y in Elems(s) + {x} ensures y in s + [x] {
      if y in s {
        var k :| 0 <= k < |s| && s[k] == y;
        assert (s + [x])[k] == y;
      } else {
        assert (s + [x])[|s|] == y;
      }
    }
  }

  /** `r` has the elements of `s` at the positions `at`, in their order. */
  ghost predicate Picks<T>(s: seq<T>, at: seq<int>, r: seq<T>) {
    && |at| == |r| && Ascending(at)
    && forall j :: 0 <= j < |at| ==> 0 <= at[j] < |s| && r[j] == s[at[j]]
  }

  // === Specifications === //

  /** What a merger over `a` and `b` still has to yield: ties take from `b` first. */
  function Merged(a: seq<int>, b: seq<int>): seq<int> {
    if a == [] then b
    else if b == [] then a
    else if a[0] < b[0] then [a[0]] + Merged(a[1..], b)
    else [b[0]] + Merged(a, b[1..])
  }

  /** The last element of every run of equal neighbours. */
  function Deduplicated(s: seq<int>): seq<int> {
    if |s| <= 1 then s
    else if s[0] == s[1] then Deduplicated(s[1..])
    else [s[0]] + Deduplicated(s[1..])
  }

  function Without(s: seq<int>, key: int): seq<int> {
    if s == [] then []
    else if s[0] == key then Without(s[1..], key)
    else [s[0]] + Without(s[1..], key)
  }

  // === Iterators === //

  /** `IterMerger`: two peekable iterators, advanced one element at a time. */
  class IterMerger {
    const a: seq<int>
    const b: seq<int>
    var i: nat
    var j: nat

    ghost predicate Valid()
      reads this
    {
      i <= |a| && j <= |b|
    }

    ghost function Remaining(): seq<int>
      requires Valid()
      reads this
    {
      Merged(a[i..], b[j..])
    }

    constructor (a: seq<int>, b: seq<int>)
      ensures Valid() && Remaining() == Merged(a, b)
      ensures this.a == a && this.b == b
    {
      this.a, this.b, i, j := a, b, 0, 0;
      new;
      assert this.a[0..] == a && this.b[0..] == b;
    }

    method Next() returns (item: Option<int>)
      requires Valid()
      modifies this
      ensures Valid()
      ensures item.None? <==> old(Remaining()) == []
      ensures item.None? ==> Remaining() == []
      ensures item.Some? ==> old(Remaining()) == [item.value] + Remaining()
      ensures item.Some? ==> (|a| - i) + (|b| - j) < old((|a| - i) + (|b| - j))
    {
      if i < |a| && j < |b| {
        if a[i] < b[j] {
          item := Some(a[i]);
          i := i + 1;
        } else {
          item := Some(b[j]);
          j := j + 1;
        }
      } else if i < |a| {
        item := Some(a[i]);
        i := i + 1;
      } else if j < |b| {
        item := Some(b[j]);
        j := j + 1;
      } else {
        item := None;
      }
    }
  }

  lemma PutAside(r: seq<int>, x: int, rest: seq<int>)
    ensures r + ([x] + rest) == (r + [x]) + rest
  {
  }

  /** Drains a merger over two lists. */
  method MergeIters(a: seq<int>, b: seq<int>) returns (r: seq<int>)
    ensures r == Merged(a, b)
  {
    var merger := new IterMerger(a, b);
    r := [];
    while true
      invariant merger.Valid() && fresh(merger)
      invariant r + merger.Remaining() == Merged(a, b)
      decreases (|merger.a| - merger.i) + (|merger.b| - merger.j)
    {
      var item := merger.Next();
      if item.None? {
        return;
      }
      PutAside(r, item.value, merger.Remaining());
      r := r + [item.value];
    }
  }

  lemma LastOfRun(s: seq<int>, i: int)
    requires 0 < i <= |s| && (i < |s| ==> s[i - 1] != s[i])
    ensures Deduplicated(s[i - 1..]) == [s[i - 1]] + Deduplicated(s[i..])
  {
    assert s[i - 1..][1..] == s[i..];
  }

  method FilterDuplicates(s: seq<int>) returns (r: seq<int>)
    ensures r == Deduplicated(s)
  {
    r := [];
    var i := 0;
    assert s[0..] == s;
    while i < |s|
      invariant i <= |s|
      invariant r + Deduplicated(s[i..]) == Deduplicated(s)
    {
      var next := s[i];
      i := i + 1;
      // Skip forward so long as the element equals the one after it.
      while i < |s| && next == s[i]
        invariant 0 < i <= |s| && next == s[i - 1]
        invariant r + Deduplicated(s[i - 1..]) == Deduplicated(s)
      {
        assert s[i - 1..][1..] == s[i..];
        next := s[i];
        i := i + 1;
      }
      LastOfRun(s, i);
      PutAside(r, next, Deduplicated(s[i..]));
      r := r + [next];
    }
  }

  method FilterKey(s: seq<int>, key: int) returns (r: seq<int>)
    ensures r == Without(s, key)
  {
    r := [];
    var i := 0;
    assert s[0..] == s;
    while i < |s|
      invariant i <= |s|
      invariant r + Without(s[i..], key) == Without(s, key)
    {
      assert s[i..][1..] == s[i + 1..];
      if s[i] != key {
        r := r + [s[i]];
      }
      i := i + 1;
    }
  }

  /** `eq_iter` with element equality: true exactly on equal sequences. */
  method EqIter(a: seq<int>, b: seq<int>) returns (same: bool)
    ensures same <==> a == b
  {
    var i := 0;
    while i < |a| && i < |b|
      invariant i <= |a| && i <= |b|
      invariant a[..i] == b[..i]
    {
      if a[i] != b[i] {
        return false;
      }
      i := i + 1;
    }
    return |a| == |b|;
  }

  // === What the specifications promise === //

  lemma ElemsCons(x: int, s: seq<int>)
    ensures Elems([x] + s) == {x} + Elems(s)
  {
    forall y | y in {x} + Elems(s) ensures y in [x] + s {
      if y in s {
        var k :| 0 <= k < |s| && s[k] == y;
        assert ([x] + s)[k + 1] == y;
      } else {
        assert ([x] + s)[0] == y;
      }
    }
  }

  lemma HeadInElems(s: seq<int>)
    ensures s != [] ==> s[0] in Elems(s)
  {
  }

  lemma ElemsHead(s: seq<int>)
    requires s != []
    ensures s == [s[0]] + s[1..] && Elems(s) == {s[0]} + Elems(s[1..])
  {
    assert s == [s[0]] + s[1..];
    ElemsCons(s[0], s[1..]);
  }

  lemma SortedHead(s: seq<int>, x: int)
    requires Sorted(s) && x in Elems(s)
    ensures s[0] <= x
  {
    var k :| 0 <= k < |s| && s[k] == x;
    assert k > 0 ==> s[0] <= s[k];
  }

  lemma AscendingHead(s: seq<int>, x: int)
    requires Ascending(s) && s != [] && x in Elems(s[1..])
    ensures s[0] < x
  {
    var k :| 0 <= k < |s[1..]| && s[1..][k] == x;
    assert s[0] < s[k + 1];
  }

  lemma SortedCons(x: int, s: seq<int>)
    requires Sorted(s) && forall y :: y in Elems(s) ==> x <= y
    ensures Sorted([x] + s)
  {
    forall i, j | 0 <= i < j < |[x] + s| ensures ([x] + s)[i] <= ([x] + s)[j] {
      assert s[j - 1] in Elems(s);
      if i > 0 { assert s[i - 1] <= s[j - 1]; }
    }
  }

  lemma AscendingCons(x: int, s: seq<int>)
    requires Ascending(s) && forall y :: y in Elems(s) ==> x < y
    ensures Ascending([x] + s)
  {
    forall i, j | 0 <= i < j < |[x] + s| ensures ([x] + s)[i] < ([x] + s)[j] {
      assert s[j - 1] in Elems(s);
      if i > 0 { assert s[i - 1] < s[j - 1]; }
    }
  }

  lemma {:induction false} MergedElems(a: seq<int>, b: seq<int>)
    ensures Elems(Merged(a, b)) == Elems(a) + Elems(b)
  {
    if a == [] || b == [] {
    } else if a[0] < b[0] {
      ElemsHead(a);
      MergedElems(a[1..], b);
      ElemsCons(a[0], Merged(a[1..], b));
    } else {
      ElemsHead(b);
      MergedElems(a, b[1..]);
      ElemsCons(b[0], Merged(a, b[1..]));
    }
  }

  /** Nothing is lost, and nothing is merged into one. */
  lemma {:induction false} MergedKeepsAll(a: seq<int>, b: seq<int>)
    ensures multiset(Merged(a, b)) == multiset(a) + multiset(b)
  {
    if a != [] && b != [] {
      if a[0] < b[0] {
        MergedKeepsAll(a[1..], b);
        assert a == [a[0]] + a[1..];
      } else {
        MergedKeepsAll(a, b[1..]);
        assert b == [b[0]] + b[1..];
      }
    }
  }

  /** The positions `at`, one further back. */
  function Behind(at: seq<int>): (next: seq<int>)
    ensures |next| == |at| && forall j :: 0 <= j < |at| ==> next[j] == at[j] + 1
    ensures forall i :: i in next <==> i - 1 in at
  {
    var next := seq(|at|, j requires 0 <= j < |at| => at[j] + 1);
    assert forall i :: i - 1 in at ==> i in next by {
      forall i | i - 1 in at ensures i in next {
        var j :| 0 <= j < |at| && at[j] == i - 1;
        assert next[j] == i;
      }
    }
    next
  }

  lemma PicksBehind<T>(s: seq<T>, at: seq<int>, r: seq<T>)
    requires s != [] && Picks(s[1..], at, r)
    ensures Picks(s, Behind(at), r)
  {
    forall j | 0 <= j < |at| ensures 0 <= Behind(at)[j] < |s| && r[j] == s[Behind(at)[j]] {
      assert s[1..][at[j]] == s[at[j] + 1];
    }
  }

  lemma PicksFirst<T>(s: seq<T>, at: seq<int>, r: seq<T>)
    requires s != [] && Picks(s, Behind(at), r) && forall j :: 0 <= j < |at| ==> at[j] >= 0
    ensures Picks(s, [0] + Behind(at), [s[0]] + r)
  {
  }

  /** What is left of a list without repetitions in a row: the last element of each run, in order. */
  lemma {:induction false} DeduplicatedPicks(s: seq<int>) returns (at: seq<int>)
    ensures Picks(s, at, Deduplicated(s))
    ensures forall i {:trigger i in at} :: i in at <==> 0 <= i < |s| && (i == |s| - 1 || s[i] != s[i + 1])
  {
    if |s| <= 1 {
      at := if s == [] then [] else [0];
    } else {
      var tail := s[1..];
      var rest := DeduplicatedPicks(tail);
      PicksBehind(s, rest, Deduplicated(tail));
      at := if s[0] != s[1] then [0] + Behind(rest) else Behind(rest);
      if s[0] != s[1] { PicksFirst(s, rest, Deduplicated(tail)); }
      forall i ensures i in at <==> 0 <= i < |s| && (i == |s| - 1 || s[i] != s[i + 1]) {
        var j := i - 1;
        assert i in Behind(rest) <==> j in rest;
        assert j in rest <==> 0 <= j < |tail| && (j == |tail| - 1 || tail[j] != tail[j + 1]);
        assert 0 <= j < |tail| ==> tail[j] == s[i] && (i < |s| - 1 ==> tail[j + 1] == s[i + 1]);
      }
    }
  }

  lemma {:induction false} WithoutPicks(s: seq<int>, key: int) returns (at: seq<int>)
    ensures Picks(s, at, Without(s, key))
    ensures forall i :: i in at <==> 0 <= i < |s| && s[i] != key
  {
    at := [];
    if s != [] {
      var rest := WithoutPicks(s[1..], key);
      PicksBehind(s, rest, Without(s[1..], key));
      at := if s[0] != key then [0] + Behind(rest) else Behind(rest);
      if s[0] != key { PicksFirst(s, rest, Without(s[1..], key)); }
      forall i ensures i in at <==> 0 <= i < |s| && s[i] != key {
        if 0 < i < |s| { assert s[1..][i - 1] == s[i]; }
        assert i in Behind(rest) <==> i - 1 in rest;
      }
    }
  }

  lemma {:induction false} MergedIsSorted(a: seq<int>, b: seq<int>)
    requires Sorted(a) && Sorted(b)
    ensures Sorted(Merged(a, b))
  {
    if a == [] || b == [] {
    } else {
      forall x | x in Elems(a) ensures a[0] <= x { SortedHead(a, x); }
      forall x | x in Elems(b) ensures b[0] <= x { SortedHead(b, x); }
      if a[0] < b[0] {
        MergedIsSorted(a[1..], b);
        MergedElems(a[1..], b);
        ElemsHead(a);
        SortedCons(a[0], Merged(a[1..], b));
      } else {
        MergedIsSorted(a, b[1..]);
        MergedElems(a, b[1..]);
        ElemsHead(b);
        SortedCons(b[0], Merged(a, b[1..]));
      }
    }
  }

  /** Merging strictly ascending lists is strictly ascending when they are disjoint. An extension by
      a key the set already has would break this, so it must never reach the merger. */
  lemma {:induction false} MergedDisjointIsAscending(a: seq<int>, b: seq<int>)
    requires Ascending(a) && Ascending(b) && Elems(a) !! Elems(b)
    ensures Ascending(Merged(a, b))
    ensures Elems(Merged(a, b)) == Elems(a) + Elems(b)
  {
    MergedElems(a, b);
    if a == [] || b == [] {
    } else {
      ElemsHead(a);
      ElemsHead(b);
      forall x | x in Elems(a[1..]) ensures a[0] < x { AscendingHead(a, x); }
      forall x | x in Elems(b[1..]) ensures b[0] < x { AscendingHead(b, x); }
      if a[0] < b[0] {
        MergedDisjointIsAscending(a[1..], b);
        AscendingCons(a[0], Merged(a[1..], b));
      } else {
        assert a[0] in Elems(a) && b[0] in Elems(b);
        MergedDisjointIsAscending(a, b[1..]);
        AscendingCons(b[0], Merged(a, b[1..]));
      }
    }
  }

  lemma {:induction false} DeduplicatedIsAscending(s: seq<int>)
    requires Sorted(s)
    ensures Ascending(Deduplicated(s)) && Elems(Deduplicated(s)) == Elems(s)
  {
    if |s| <= 1 {
    } else {
      DeduplicatedIsAscending(s[1..]);
      ElemsHead(s);
      var d := Deduplicated(s[1..]);
      if s[0] == s[1] {
        assert s[1..][0] in Elems(s[1..]);
      } else {
        forall x | x in Elems(d) ensures s[0] < x { SortedHead(s[1..], x); }
        AscendingCons(s[0], d);
        ElemsCons(s[0], d);
      }
    }
  }

  lemma {:induction false} WithoutIsDifference(s: seq<int>, key: int)
    requires Ascending(s)
    ensures Ascending(Without(s, key)) && Elems(Without(s, key)) == Elems(s) - {key}
  {
    if s == [] {
    } else {
      WithoutIsDifference(s[1..], key);
      ElemsHead(s);
      var w := Without(s[1..], key);
      forall x | x in Elems(s[1..]) ensures s[0] < x { AscendingHead(s, x); }
      AscendingCons(s[0], w);
      ElemsCons(s[0], w);
    }
  }

  /** A strictly ascending list is determined by its set of elements. */
  lemma {:induction false} AscendingIsCanonical(a: seq<int>, b: seq<int>)
    requires Ascending(a) && Ascending(b) && Elems(a) == Elems(b)
    ensures a == b
  {
    if a == [] {
      HeadInElems(b);
    } else {
      assert a[0] in Elems(b);
      SortedHead(b, a[0]);
      assert b[0] in Elems(a);
      SortedHead(a, b[0]);
      ElemsHead(a);
      ElemsHead(b);
      forall x | x in Elems(a[1..]) ensures a[0] < x { AscendingHead(a, x); }
      forall x | x in Elems(b[1..]) ensures b[0] < x { AscendingHead(b, x); }
      assert a[0] !in Elems(a[1..]) && a[0] !in Elems(b[1..]);
      AscendingIsCanonical(a[1..], b[1..]);
    }
  }
}

/** `slice::sort` on lists of identifiers. */
module Sorting {
  import opened Iters

  function Insertion(s: seq<int>, x: int): seq<int> {
    if s == [] || x <= s[0] then [x] + s else [s[0]] + Insertion(s[1..], x)
  }

  function SortedCopy(s: seq<int>): seq<int> {
    if s == [] then [] else Insertion(SortedCopy(s[1..]), s[0])
  }

  predicate NoRepeats<T(==)>(s: seq<T>) {
    forall i, j :: 0 <= i < j < |s| ==> s[i] != s[j]
  }

  lemma {:induction false} InsertionElems(s: seq<int>, x: int)
    ensures Elems(Insertion(s, x)) == Elems(s) + {x} && |Insertion(s, x)| == |s| + 1
  {
    if s == [] || x <= s[0] {
      ElemsCons(x, s);
    } else {
      InsertionElems(s[1..], x);
      ElemsHead(s);
      ElemsCons(s[0], Insertion(s[1..], x));
    }
  }

  lemma {:induction false} InsertionIsSorted(s: seq<int>, x: int)
    requires Sorted(s)
    ensures Sorted(Insertion(s, x))
  {
    forall y | y in Elems(s) ensures s[0] <= y { SortedHead(s, y); }
    if s == [] || x <= s[0] {
      SortedCons(x, s);
    } else {
      InsertionIsSorted(s[1..], x);
      InsertionElems(s[1..], x);
      ElemsHead(s);
      SortedCons(s[0], Insertion(s[1..], x));
    }
  }

  lemma {:induction false} InsertionIsAscending(s: seq<int>, x: int)
    requires Ascending(s) && x !in Elems(s)
    ensures Ascending(Insertion(s, x))
  {
    if s == [] {
    } else {
      ElemsHead(s);
      forall y | y in Elems(s[1..]) ensures s[0] < y { AscendingHead(s, y); }
      if x <= s[0] {
        AscendingCons(x, s);
      } else {
        InsertionIsAscending(s[1..], x);
        InsertionElems(s[1..], x);
        AscendingCons(s[0], Insertion(s[1..], x));
      }
    }
  }

  lemma {:induction false} SortedCopySorts(s: seq<int>)
    ensures Sorted(SortedCopy(s)) && Elems(SortedCopy(s)) == Elems(s) && |SortedCopy(s)| == |s|
  {
    if s == [] {
    } else {
      SortedCopySorts(s[1..]);
      InsertionIsSorted(SortedCopy(s[1..]), s[0]);
      InsertionElems(SortedCopy(s[1..]), s[0]);
      ElemsHead(s);
    }
  }

  lemma {:induction false} InsertionAdds(s: seq<int>, x: int)
    ensures multiset(Insertion(s, x)) == multiset(s) + multiset{x}
  {
    if s != [] && x > s[0] {
      InsertionAdds(s[1..], x);
      assert s == [s[0]] + s[1..];
    }
  }

  lemma {:induction false} SortedCopyIsPermutation(s: seq<int>)
    ensures multiset(SortedCopy(s)) == multiset(s)
  {
    if s != [] {
      SortedCopyIsPermutation(s[1..]);
      InsertionAdds(SortedCopy(s[1..]), s[0]);
      assert s == [s[0]] + s[1..];
    }
  }

  /** Sorting a list without repeats makes it strictly ascending. */
  lemma {:induction false} SortedCopyIsAscending(s: seq<int>)
    requires NoRepeats(s)
    ensures Ascending(SortedCopy(s))
  {
    if s == [] {
    } else {
      SortedCopyIsAscending(s[1..]);
      SortedCopySorts(s[1..]);
      InsertionIsAscending(SortedCopy(s[1..]), s[0]);
    }
  }
}
