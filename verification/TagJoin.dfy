/** The merge-join that finds the archetypes containing several tags (`src/database.rs`,
    `enumerate_tag_intersection`). */
module TagJoin {
  import opened Iters
  import opened Arena

  /** How an iterator over one tag's containers answers when asked for a given archetype. */
  datatype Probe = Exhausted | Mismatch | Match

  ghost predicate InAll(lists: seq<seq<Ptr>>, x: Ptr) {
    forall k {:trigger lists[k]} :: 0 <= k < |lists| ==> x in lists[k]
  }

  /** Everything an iterator has consumed lies below `bound`. */
  ghost predicate ConsumedBelow(lists: seq<seq<Ptr>>, pos: seq<int>, bound: Ptr) {
    && |pos| == |lists|
    && forall k {:trigger pos[k]} {:trigger lists[k]} :: 0 <= k < |lists| ==>
         && 0 <= pos[k] <= |lists[k]|
         && forall j :: 0 <= j < pos[k] ==> lists[k][j] < bound
  }

  ghost predicate AllAscending(lists: seq<seq<Ptr>>) {
    forall k {:trigger lists[k]} :: 0 <= k < |lists| ==> Ascending(lists[k])
  }

  ghost predicate NoneFrom(list: seq<Ptr>, x: Ptr) {
    forall y :: y >= x ==> y !in list
  }

  /** Skips what lies below `x`. */
  method Skip(list: seq<Ptr>, start: int, x: Ptr) returns (i: int)
    requires Ascending(list) && 0 <= start <= |list|
    requires forall j :: 0 <= j < start ==> list[j] < x
    ensures start <= i <= |list| && forall j :: 0 <= j < i ==> list[j] < x
    ensures x in list <==> i < |list| && list[i] == x
    ensures i < |list| ==> list[i] >= x
  {
    i := start;
    while i < |list| && list[i] < x
      invariant start <= i <= |list| && forall j :: 0 <= j < i ==> list[j] < x
    {
      i := i + 1;
    }
  }

  /** Looks for `x` in the other lists, one after the other. */
  method ProbeAll(lists: seq<seq<Ptr>>, pos: seq<int>, x: Ptr) returns (probe: Probe, pos': seq<int>)
    requires AllAscending(lists) && ConsumedBelow(lists, pos, x)
    ensures ConsumedBelow(lists, pos', x)
    ensures probe.Match? <==> InAll(lists, x)
    ensures probe.Exhausted? ==> exists k :: 0 <= k < |lists| && NoneFrom(lists[k], x)
  {
    pos' := pos;
    var k := 0;
    while k < |lists|
      invariant 0 <= k <= |lists| && ConsumedBelow(lists, pos', x)
      invariant forall m {:trigger lists[m]} :: 0 <= m < k ==> x in lists[m]
    {
      assert Ascending(lists[k]);
      var i := Skip(lists[k], pos'[k], x);
      pos' := pos'[k := i];
      if i == |lists[k]| {
        assert NoneFrom(lists[k], x);
        return Exhausted, pos';
      }
      if lists[k][i] != x {
        return Mismatch, pos';
      }
      k := k + 1;
    }
    probe := Match;
  }

  /** The elements that all of the ascending lists have, in ascending order. The last list leads. */
  method Join(lists: seq<seq<Ptr>>) returns (r: seq<Ptr>)
    requires lists != [] && AllAscending(lists)
    ensures Ascending(r) && forall x :: x in r <==> InAll(lists, x)
  {
    var primary, others := lists[|lists| - 1], lists[..|lists| - 1];
    assert Ascending(primary) && AllAscending(others);
    assert lists == others + [primary];
    var pos := seq(|others|, _ => 0);
    r := [];
    var i := 0;
    while i < |primary|
      invariant 0 <= i <= |primary|
      invariant Joined(primary, others, i, r)
      invariant if i == 0 then pos == seq(|others|, _ => 0) else ConsumedBelow(others, pos, primary[i - 1])
    {
      var x := primary[i];
      assert ConsumedBelow(others, pos, x);
      var probe;
      probe, pos := ProbeAll(others, pos, x);
      if probe.Exhausted? {
        NothingMore(primary, others, i, r);
        JoinedAll(lists, r);
        return;
      }
      JoinedStep(primary, others, i, r, probe.Match?);
      if probe.Match? {
        r := r + [x];
      }
      i := i + 1;
    }
    JoinedAll(lists, r);
  }

  /** The matches among the first `i` elements of the leading list. */
  ghost predicate Joined(primary: seq<Ptr>, others: seq<seq<Ptr>>, i: int, r: seq<Ptr>) {
    && 0 <= i <= |primary| && Ascending(r)
    && forall x :: x in r <==> x in primary[..i] && InAll(others, x)
  }

  lemma JoinedStep(primary: seq<Ptr>, others: seq<seq<Ptr>>, i: int, r: seq<Ptr>, match_: bool)
    requires Joined(primary, others, i, r) && i < |primary| && Ascending(primary)
    requires match_ <==> InAll(others, primary[i])
    ensures Joined(primary, others, i + 1, if match_ then r + [primary[i]] else r)
  {
    var x := primary[i];
    assert primary[..i + 1] == primary[..i] + [x];
    forall y | y in r ensures y < x {
      var j :| 0 <= j < i && primary[..i][j] == y;
    }
    forall j | 0 <= j < |r| ensures r[j] < x { assert r[j] in r; }
    var r' := if match_ then r + [x] else r;
    forall y ensures y in r' <==> y in primary[..i + 1] && InAll(others, y) {
      assert y in primary[..i + 1] <==> y in primary[..i] || y == x;
      assert y in r + [x] <==> y in r || y == x;
    }
  }

  lemma NothingMore(primary: seq<Ptr>, others: seq<seq<Ptr>>, i: int, r: seq<Ptr>)
    requires Joined(primary, others, i, r) && i < |primary| && Ascending(primary)
    requires exists k :: 0 <= k < |others| && NoneFrom(others[k], primary[i])
    ensures Joined(primary, others, |primary|, r)
  {
    forall x | x in primary && InAll(others, x) ensures x in primary[..i] {
      var k :| 0 <= k < |others| && NoneFrom(others[k], primary[i]);
      assert x in others[k] && x < primary[i];
      var j :| 0 <= j < |primary| && primary[j] == x;
      assert primary[..i][j] == x;
    }
    assert primary[..|primary|] == primary;
  }

  lemma JoinedAll(lists: seq<seq<Ptr>>, r: seq<Ptr>)
    requires lists != [] && Joined(lists[|lists| - 1], lists[..|lists| - 1], |lists[|lists| - 1]|, r)
    ensures forall x :: x in r <==> InAll(lists, x)
  {
    var n := |lists| - 1;
    assert lists[n][..|lists[n]|] == lists[n];
    forall x ensures InAll(lists, x) <==> x in lists[n] && InAll(lists[..n], x) {
      if x in lists[n] && InAll(lists[..n], x) {
        forall k | 0 <= k < |lists| ensures x in lists[k] {
          if k < n { assert x in lists[..n][k]; }
        }
      }
      if InAll(lists, x) {
        forall k | 0 <= k < n ensures x in lists[..n][k] { assert x in lists[k]; }
      }
    }
  }
}
