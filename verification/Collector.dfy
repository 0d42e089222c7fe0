/** Which archetypes the recursive removal of stepping stones takes out of the key graph
    (`src/database.rs`, `can_remove_archetype` and `rec_remove_stepping_stone_arches`). */
module Collector {
  import opened Iters
  import opened Arena
  import opened KeyGraph

  /** Some add edge leads to another entry, so `p` is a stepping stone. */
  ghost predicate HasOnward(g: Graph, p: Ptr)
    requires p in g
  {
    exists k :: k in g[p].ext && g[p].ext[k] != p
  }

  ghost predicate IsSteppingStone(g: Graph, p: Ptr) {
    p in g && HasOnward(g, p)
  }

  ghost predicate OnwardWithin(g: Graph, p: Ptr, r: set<Ptr>)
    requires p in g
  {
    forall k :: k in g[p].ext && g[p].ext[k] != p ==> g[p].ext[k] in r
  }

  /** `can_remove_archetype`, where `busy` has the root and every archetype with entities, physical or
      virtual. */
  ghost predicate Removable(g: Graph, busy: set<Ptr>, p: Ptr)
    requires p in g
  {
    p !in busy && !HasOnward(g, p)
  }

  /** An entry that may not be removed. */
  ghost predicate Stays(g: Graph, busy: set<Ptr>, p: Ptr) {
    p in g && !Removable(g, busy, p)
  }

  /** `r` is what must go once removal was asked for each entry in `asked`: unused entries all of whose
      onward entries go, if they were asked for or were stepping stones. */
  ghost predicate Goes(g: Graph, busy: set<Ptr>, asked: set<Ptr>, r: set<Ptr>, p: Ptr)
    requires p in g
  {
    p !in busy && OnwardWithin(g, p, r) && (p in asked || HasOnward(g, p))
  }

  ghost predicate IsCollection(g: Graph, busy: set<Ptr>, asked: set<Ptr>, r: set<Ptr>) {
    && r <= g.Keys
    && forall p {:trigger Goes(g, busy, asked, r, p)} :: p in g ==> (p in r <==> Goes(g, busy, asked, r, p))
  }

  /** The graph after removing a whole set of entries. */
  ghost function Minus(g: Graph, r: set<Ptr>): Graph {
    map p | p in g && p !in r :: g[p].(ext := EdgesOutside(g[p].ext, r), de := EdgesOutside(g[p].de, r))
  }

  ghost function EdgesOutside(edges: map<Key, Ptr>, r: set<Ptr>): map<Key, Ptr> {
    map k | k in edges && edges[k] !in r :: edges[k]
  }

  lemma MinusOne(g: Graph, p: Ptr)
    ensures Minus(g, {p}) == Unlinked(g, p)
  {
    forall q | q in g && q != p ensures Minus(g, {p})[q] == Unlinked(g, p)[q] {
      assert EdgesOutside(g[q].ext, {p}) == WithoutEdgesTo(g[q].ext, p);
      assert EdgesOutside(g[q].de, {p}) == WithoutEdgesTo(g[q].de, p);
    }
  }

  /** All that happened from `g` to `h` is that entries were removed. */
  ghost predicate OnlyLost(g: Graph, h: Graph) {
    h.Keys <= g.Keys && h == Minus(g, g.Keys - h.Keys)
  }

  lemma MinusOnlyLoses(g: Graph, r: set<Ptr>)
    requires r <= g.Keys
    ensures OnlyLost(g, Minus(g, r))
  {
    assert g.Keys - Minus(g, r).Keys == r;
  }

  lemma MinusNothing(g: Graph)
    ensures Minus(g, {}) == g
  {
    forall q | q in g ensures Minus(g, {})[q] == g[q] {
      assert EdgesOutside(g[q].ext, {}) == g[q].ext;
      assert EdgesOutside(g[q].de, {}) == g[q].de;
    }
  }

  lemma MinusTwice(g: Graph, a: set<Ptr>, b: set<Ptr>)
    ensures Minus(Minus(g, a), b) == Minus(g, a + b)
  {
    forall q | q in g && q !in a && q !in b ensures Minus(Minus(g, a), b)[q] == Minus(g, a + b)[q] {
      assert EdgesOutside(EdgesOutside(g[q].ext, a), b) == EdgesOutside(g[q].ext, a + b);
      assert EdgesOutside(EdgesOutside(g[q].de, a), b) == EdgesOutside(g[q].de, a + b);
    }
  }

  lemma MinusOnward(g: Graph, r: set<Ptr>, p: Ptr)
    requires p in g && p !in r
    ensures HasOnward(Minus(g, r), p) <==> exists k :: k in g[p].ext && g[p].ext[k] != p && g[p].ext[k] !in r
    ensures HasOnward(Minus(g, r), p) <==> !OnwardWithin(g, p, r)
    ensures forall s :: OnwardWithin(Minus(g, r), p, s) <==> OnwardWithin(g, p, r + s)
  {
    var h := Minus(g, r);
    if HasOnward(h, p) {
      var k :| k in h[p].ext && h[p].ext[k] != p;
      assert k in g[p].ext && g[p].ext[k] != p && g[p].ext[k] !in r;
    }
    if k :| k in g[p].ext && g[p].ext[k] != p && g[p].ext[k] !in r {
      assert k in h[p].ext && h[p].ext[k] != p;
    }
    forall s ensures OnwardWithin(h, p, s) <==> OnwardWithin(g, p, r + s) {
      if OnwardWithin(h, p, s) {
        forall k | k in g[p].ext && g[p].ext[k] != p ensures g[p].ext[k] in r + s {
          if g[p].ext[k] !in r { assert k in h[p].ext; }
        }
      }
    }
  }

  /** Asking for one more entry extends the collection by what goes from the graph that is left. */
  lemma CollectOneMore(g: Graph, busy: set<Ptr>, asked: set<Ptr>, r1: set<Ptr>, t: Ptr, r2: set<Ptr>)
    requires IsCollection(g, busy, asked, r1)
    requires t in g && t !in r1 && Removable(Minus(g, r1), busy, t)
    requires IsCollection(Minus(g, r1), busy, {t}, r2)
    ensures IsCollection(g, busy, asked + {t}, r1 + r2)
  {
    var h := Minus(g, r1);
    forall p | p in g ensures p in r1 + r2 <==> Goes(g, busy, asked + {t}, r1 + r2, p) {
      assert p in r1 <==> Goes(g, busy, asked, r1, p);
      if p !in r1 {
        assert p in r2 <==> Goes(h, busy, {t}, r2, p);
        MinusOnward(g, r1, p);
        MinusOnward(g, r1, t);
      }
    }
  }

  /** Asking for an entry that may not be removed changes nothing. */
  lemma CollectNoMore(g: Graph, busy: set<Ptr>, asked: set<Ptr>, r: set<Ptr>, t: Ptr)
    requires IsCollection(g, busy, asked, r)
    requires t in g && t !in r && !Removable(Minus(g, r), busy, t)
    ensures IsCollection(g, busy, asked + {t}, r)
  {
    MinusOnward(g, r, t);
    forall p | p in g ensures p in r <==> Goes(g, busy, asked + {t}, r, p) {
      assert p in r <==> Goes(g, busy, asked, r, p);
    }
  }

  /** Nothing in use goes. */
  lemma CollectionIsIdle(g: Graph, busy: set<Ptr>, asked: set<Ptr>, r: set<Ptr>)
    requires IsCollection(g, busy, asked, r)
    ensures r <= g.Keys && r !! busy
  {
    forall p | p in r ensures p !in busy {
      assert Goes(g, busy, asked, r, p);
    }
  }

  /** What goes when removal of one entry is tried. */
  ghost predicate Tried(g: Graph, busy: set<Ptr>, a: Ptr, gone: set<Ptr>) {
    && a in g
    && (Removable(g, busy, a) ==> IsCollection(g, busy, {a}, gone))
    && (!Removable(g, busy, a) ==> gone == {})
  }

  lemma CollectNothing(g: Graph, busy: set<Ptr>)
    ensures IsCollection(g, busy, {}, {})
  {
    forall p | p in g ensures !Goes(g, busy, {}, {}, p) {
    }
  }

  /** The entries with an add edge to `p`: where the recursion looks for new dead ends. */
  ghost predicate Precedes(g: Graph, s: Ptr, p: Ptr)
    requires s in g
  {
    s != p && exists k :: k in g[s].ext && g[s].ext[k] == p
  }

  /** Removing `p` itself, then asking for every predecessor that became removable, is asking for `p`. */
  lemma CollectFromPredecessors(g: Graph, busy: set<Ptr>, p: Ptr, asked: set<Ptr>, r: set<Ptr>)
    requires p in g && Removable(g, busy, p)
    requires IsCollection(Minus(g, {p}), busy, asked, r)
    requires forall s :: s in asked <==> s in g && s != p && Precedes(g, s, p) && Removable(Minus(g, {p}), busy, s)
    ensures IsCollection(g, busy, {p}, {p} + r)
  {
    var h := Minus(g, {p});
    forall q | q in g ensures q in {p} + r <==> Goes(g, busy, {p}, {p} + r, q) {
      if q != p {
        assert q in r <==> Goes(h, busy, asked, r, q);
        MinusOnward(g, {p}, q);
        if HasOnward(g, q) && !HasOnward(h, q) {
          var k :| k in g[q].ext && g[q].ext[k] != q;
          assert g[q].ext[k] == p;
        }
      }
    }
  }

  // === Determinacy: the order in which removal is asked for does not matter === //

  /** The entries with more keys: what remains to look at above `p`. */
  ghost function Above(g: Graph, p: Ptr): set<Ptr>
    requires p in g
  {
    set q | q in g && |g[q].keys| > |g[p].keys|
  }

  lemma OnwardIsAbove(g: Graph, root: Ptr, p: Ptr, k: Key)
    requires GraphInv(g, root) && p in g && k in g[p].ext && g[p].ext[k] != p
    ensures g[p].ext[k] in g && |g[g[p].ext[k]].keys| == |g[p].keys| + 1
    ensures Above(g, g[p].ext[k]) < Above(g, p)
  {
    assert NodeOk(g, p) && ExtOk(g, p, k);
    assert g[p].ext[k] in Above(g, p) && g[p].ext[k] !in Above(g, g[p].ext[k]);
  }

  /** The collection as a function of the graph and of what was asked for. */
  ghost predicate Collected(g: Graph, root: Ptr, busy: set<Ptr>, asked: set<Ptr>, p: Ptr)
    requires GraphInv(g, root) && p in g
    decreases Above(g, p)
  {
    && p !in busy
    && (forall k :: k in g[p].ext && g[p].ext[k] != p ==>
          (OnwardIsAbove(g, root, p, k); Collected(g, root, busy, asked, g[p].ext[k])))
    && (p in asked || HasOnward(g, p))
  }

  lemma {:induction false} CollectionIsUnique(g: Graph, root: Ptr, busy: set<Ptr>, asked: set<Ptr>, r: set<Ptr>, p: Ptr)
    requires GraphInv(g, root) && p in g && IsCollection(g, busy, asked, r)
    ensures p in r <==> Collected(g, root, busy, asked, p)
    decreases Above(g, p)
  {
    assert p in r <==> Goes(g, busy, asked, r, p);
    forall k | k in g[p].ext && g[p].ext[k] != p
      ensures g[p].ext[k] in g && (g[p].ext[k] in r <==> Collected(g, root, busy, asked, g[p].ext[k]))
    {
      OnwardIsAbove(g, root, p, k);
      CollectionIsUnique(g, root, busy, asked, r, g[p].ext[k]);
    }
  }

  lemma {:induction false} CollectedIsMonotone(g: Graph, root: Ptr, busy: set<Ptr>, asked: set<Ptr>, more: set<Ptr>,
                                               p: Ptr)
    requires GraphInv(g, root) && p in g && asked <= more
    requires Collected(g, root, busy, asked, p)
    ensures Collected(g, root, busy, more, p)
    decreases Above(g, p)
  {
    forall k | k in g[p].ext && g[p].ext[k] != p
      ensures g[p].ext[k] in g && Collected(g, root, busy, more, g[p].ext[k])
    {
      OnwardIsAbove(g, root, p, k);
      CollectedIsMonotone(g, root, busy, asked, more, g[p].ext[k]);
    }
  }

  /** Whatever goes without being asked for lies below an entry that was. */
  lemma {:induction false} CollectedLiesBelowAsked(g: Graph, root: Ptr, busy: set<Ptr>, asked: set<Ptr>, p: Ptr)
    returns (q: Ptr)
    requires GraphInv(g, root) && p in g && Collected(g, root, busy, asked, p)
    ensures q in g && q in asked
    ensures q == p || |g[q].keys| > |g[p].keys|
    decreases Above(g, p)
  {
    if p in asked {
      q := p;
    } else {
      var k :| k in g[p].ext && g[p].ext[k] != p;
      OnwardIsAbove(g, root, p, k);
      q := CollectedLiesBelowAsked(g, root, busy, asked, g[p].ext[k]);
    }
  }

  // === The deletion loop of a flush === //

  /** The loop deletes in the iteration order of a hash set, and looks up a pointer that an earlier
      iteration's recursion may already have freed. It then panics: exactly at the first such entry. */
  ghost predicate PanicsAt(g: Graph, root: Ptr, busy: set<Ptr>, order: seq<Ptr>, j: nat)
    requires GraphInv(g, root) && j < |order| && Elems(order) <= g.Keys
  {
    assert order[j] in Elems(order);
    Collected(g, root, busy, Elems(order[..j]), order[j])
  }

  ghost predicate Panics(g: Graph, root: Ptr, busy: set<Ptr>, order: seq<Ptr>)
    requires GraphInv(g, root) && Elems(order) <= g.Keys
  {
    exists j: nat :: j < |order| && PanicsAt(g, root, busy, order, j)
  }

  /** The first `i` archetypes of the order were handled without a panic, and `r` went so far. */
  ghost predicate Deleting(g: Graph, root: Ptr, busy: set<Ptr>, order: seq<Ptr>, i: int, r: set<Ptr>) {
    && GraphInv(g, root) && Elems(order) <= g.Keys && 0 <= i <= |order|
    && IsCollection(g, busy, Elems(order[..i]), r)
    && forall j: nat :: j < i ==> !PanicsAt(g, root, busy, order, j)
  }

  lemma DeletingStart(g: Graph, root: Ptr, busy: set<Ptr>, order: seq<Ptr>)
    requires GraphInv(g, root) && Elems(order) <= g.Keys
    ensures Deleting(g, root, busy, order, 0, {}) && Minus(g, {}) == g
  {
    CollectNothing(g, busy);
    MinusNothing(g);
    assert Elems(order[..0]) == {};
  }

  /** The next archetype is gone exactly if its lookup panics. */
  lemma DeletingNext(g: Graph, root: Ptr, busy: set<Ptr>, order: seq<Ptr>, i: int, r: set<Ptr>)
    requires Deleting(g, root, busy, order, i, r) && i < |order|
    ensures order[i] in g && (order[i] in r <==> PanicsAt(g, root, busy, order, i))
  {
    assert order[i] in Elems(order);
    CollectionIsUnique(g, root, busy, Elems(order[..i]), r, order[i]);
  }

  lemma DeletingMore(g: Graph, root: Ptr, busy: set<Ptr>, order: seq<Ptr>, i: int, r: set<Ptr>, gone: set<Ptr>)
    requires Deleting(g, root, busy, order, i, r) && i < |order|
    requires order[i] in Minus(g, r) && Removable(Minus(g, r), busy, order[i])
    requires IsCollection(Minus(g, r), busy, {order[i]}, gone)
    ensures Deleting(g, root, busy, order, i + 1, r + gone) && Minus(Minus(g, r), gone) == Minus(g, r + gone)
  {
    DeletingNext(g, root, busy, order, i, r);
    assert order[..i + 1] == order[..i] + [order[i]];
    ElemsSnoc(order[..i], order[i]);
    CollectOneMore(g, busy, Elems(order[..i]), r, order[i], gone);
    MinusTwice(g, r, gone);
  }

  lemma DeletingSame(g: Graph, root: Ptr, busy: set<Ptr>, order: seq<Ptr>, i: int, r: set<Ptr>)
    requires Deleting(g, root, busy, order, i, r) && i < |order|
    requires order[i] in Minus(g, r) && !Removable(Minus(g, r), busy, order[i])
    ensures Deleting(g, root, busy, order, i + 1, r)
  {
    DeletingNext(g, root, busy, order, i, r);
    assert order[..i + 1] == order[..i] + [order[i]];
    ElemsSnoc(order[..i], order[i]);
    CollectNoMore(g, busy, Elems(order[..i]), r, order[i]);
  }

  lemma DeletingTried(g: Graph, root: Ptr, busy: set<Ptr>, order: seq<Ptr>, i: int, r: set<Ptr>, gone: set<Ptr>)
    requires Deleting(g, root, busy, order, i, r) && i < |order|
    requires Tried(Minus(g, r), busy, order[i], gone)
    ensures Deleting(g, root, busy, order, i + 1, r + gone) && Minus(Minus(g, r), gone) == Minus(g, r + gone)
  {
    if Removable(Minus(g, r), busy, order[i]) {
      DeletingMore(g, root, busy, order, i, r, gone);
    } else {
      DeletingSame(g, root, busy, order, i, r);
      MinusTwice(g, r, gone);
      assert r + gone == r;
    }
  }

  lemma DeletingEnd(g: Graph, root: Ptr, busy: set<Ptr>, order: seq<Ptr>, r: set<Ptr>)
    requires Deleting(g, root, busy, order, |order|, r)
    ensures !Panics(g, root, busy, order) && IsCollection(g, busy, Elems(order), r)
  {
    assert order[..|order|] == order;
  }

  lemma DeletingDecides(g: Graph, root: Ptr, busy: set<Ptr>, order: seq<Ptr>, count: int, r: set<Ptr>, panicked: bool)
    requires Deleting(g, root, busy, order, count, r)
    requires panicked ==> count < |order| && order[count] in r
    requires !panicked ==> count == |order|
    ensures panicked <==> Panics(g, root, busy, order)
    ensures Elems(order[..count]) <= Elems(order) && (!panicked ==> order[..count] == order)
  {
    if panicked {
      DeletingNext(g, root, busy, order, count, r);
    } else {
      DeletingEnd(g, root, busy, order, r);
    }
  }

  /** Deleting smaller key sets first is always safe. */
  lemma FewestKeysFirstNeverPanics(g: Graph, root: Ptr, busy: set<Ptr>, order: seq<Ptr>)
    requires GraphInv(g, root) && Elems(order) <= g.Keys
    requires forall i, j :: 0 <= i < j < |order| ==> order[i] != order[j]
    requires forall i, j :: 0 <= i < j < |order| ==>
      order[i] in g && order[j] in g && |g[order[i]].keys| <= |g[order[j]].keys|
    ensures !Panics(g, root, busy, order)
  {
    forall j: nat | j < |order| ensures !PanicsAt(g, root, busy, order, j) {
      assert order[j] in Elems(order);
      forall q | q in Elems(order[..j]) ensures q in g && q != order[j] && |g[q].keys| <= |g[order[j]].keys| {
        var i :| 0 <= i < j && order[..j][i] == q;
        assert order[i] == q;
      }
      if Collected(g, root, busy, Elems(order[..j]), order[j]) {
        var q := CollectedLiesBelowAsked(g, root, busy, Elems(order[..j]), order[j]);
      }
    }
  }

  /** Some order of the set panics exactly when one of its members goes without being asked for. */
  lemma SomeOrderPanicsIff(g: Graph, root: Ptr, busy: set<Ptr>, doomed: set<Ptr>)
    requires GraphInv(g, root) && doomed <= g.Keys
    ensures (exists order :: IsOrderOf(order, doomed) && Panics(g, root, busy, order)) <==>
      Hazard(g, root, busy, doomed)
  {
    if order :| IsOrderOf(order, doomed) && Panics(g, root, busy, order) {
      var j: nat :| j < |order| && PanicsAt(g, root, busy, order, j);
      assert order[j] in Elems(order);
      assert Elems(order[..j]) <= doomed - {order[j]};
      CollectedIsMonotone(g, root, busy, Elems(order[..j]), doomed - {order[j]}, order[j]);
    }
    if d :| d in doomed && Collected(g, root, busy, doomed - {d}, d) {
      var first := SomeOrder(doomed - {d});
      var order := first + [d];
      assert order[..|first|] == first;
      ElemsSnoc(first, d);
      assert PanicsAt(g, root, busy, order, |first|);
      assert IsOrderOf(order, doomed);
    }
  }

  lemma {:induction false} BusyNeedNotBeAsked(g: Graph, root: Ptr, busy: set<Ptr>, asked: set<Ptr>, p: Ptr)
    requires GraphInv(g, root) && p in g && Collected(g, root, busy, asked, p)
    ensures Collected(g, root, busy, asked - busy, p)
    decreases Above(g, p)
  {
    forall k | k in g[p].ext && g[p].ext[k] != p
      ensures g[p].ext[k] in g && Collected(g, root, busy, asked - busy, g[p].ext[k])
    {
      OnwardIsAbove(g, root, p, k);
      BusyNeedNotBeAsked(g, root, busy, asked, g[p].ext[k]);
    }
  }

  /** What stays of the graph when each entry in `asked` was asked for. */
  ghost predicate Leaves(g: Graph, root: Ptr, busy: set<Ptr>, asked: set<Ptr>, left: set<Ptr>)
    requires GraphInv(g, root)
  {
    forall p {:trigger p in left} :: p in g ==> (p in left <==> !Collected(g, root, busy, asked, p))
  }

  lemma CollectionLeaves(g: Graph, root: Ptr, busy: set<Ptr>, asked: set<Ptr>, r: set<Ptr>, left: set<Ptr>)
    requires GraphInv(g, root) && IsCollection(g, busy, asked, r) && left == g.Keys - r
    ensures Leaves(g, root, busy, asked - busy, left)
  {
    forall p | p in g
      ensures p in left <==> !Collected(g, root, busy, asked - busy, p)
    {
      CollectionIsUnique(g, root, busy, asked, r, p);
      if Collected(g, root, busy, asked, p) {
        BusyNeedNotBeAsked(g, root, busy, asked, p);
      } else if Collected(g, root, busy, asked - busy, p) {
        CollectedIsMonotone(g, root, busy, asked - busy, asked, p);
      }
    }
  }

  /** Some entry of the set also goes because of the others. */
  ghost predicate Hazard(g: Graph, root: Ptr, busy: set<Ptr>, doomed: set<Ptr>)
    requires GraphInv(g, root) && doomed <= g.Keys
  {
    exists d :: d in doomed && Collected(g, root, busy, doomed - {d}, d)
  }

  /** Entries in use never matter to the loop, so a panic needs such an entry among the others. */
  lemma PanicNeedsHazard(g: Graph, root: Ptr, busy: set<Ptr>, order: seq<Ptr>, doomed: set<Ptr>)
    requires GraphInv(g, root) && Elems(order) <= g.Keys && doomed == Elems(order) - busy
    requires forall i, j :: 0 <= i < j < |order| ==> order[i] != order[j]
    ensures Panics(g, root, busy, order) ==> Hazard(g, root, busy, doomed)
  {
    if j: nat :| j < |order| && PanicsAt(g, root, busy, order, j) {
      var d, asked := order[j], Elems(order[..j]);
      assert d in Elems(order);
      BusyNeedNotBeAsked(g, root, busy, asked, d);
      assert asked - busy <= doomed - {d};
      CollectedIsMonotone(g, root, busy, asked - busy, doomed - {d}, d);
    }
  }

  // === What can be reached === //

  ghost predicate Leads(g: Graph, p: Ptr, q: Ptr) {
    p in g && q != p && exists k :: k in g[p].ext && g[p].ext[k] == q
  }

  ghost predicate IsPath(g: Graph, path: seq<Ptr>) {
    path != [] && forall i :: 0 <= i < |path| - 1 ==> Leads(g, path[i], path[i + 1])
  }

  /** Add edges lead from `p` to `q`, in any number of steps. */
  ghost predicate Reaches(g: Graph, p: Ptr, q: Ptr) {
    exists path :: IsPath(g, path) && path[0] == p && path[|path| - 1] == q
  }

  lemma ReachesItself(g: Graph, p: Ptr)
    ensures Reaches(g, p, p)
  {
    assert IsPath(g, [p]);
  }

  lemma ReachesFurther(g: Graph, p: Ptr, q: Ptr, r: Ptr)
    requires Leads(g, p, q) && Reaches(g, q, r)
    ensures Reaches(g, p, r)
  {
    var path :| IsPath(g, path) && path[0] == q && path[|path| - 1] == r;
    var longer := [p] + path;
    assert forall i :: 0 < i < |longer| ==> longer[i] == path[i - 1];
    assert IsPath(g, longer);
  }

  /** Neither `p` nor anything it reaches is in `busy`. */
  ghost predicate Deserted(g: Graph, busy: set<Ptr>, p: Ptr) {
    forall q {:trigger Reaches(g, p, q)} :: Reaches(g, p, q) ==> q !in busy
  }

  lemma DesertedOnward(g: Graph, busy: set<Ptr>, p: Ptr, q: Ptr)
    requires Deserted(g, busy, p) && Leads(g, p, q)
    ensures Deserted(g, busy, q)
  {
    forall r | Reaches(g, q, r) ensures r !in busy {
      ReachesFurther(g, p, q, r);
    }
  }

  /** Where the members of `asked` and stepping stones are all there is, deserted entries go; an entry outside
      of `asked` must lie below one of them. */
  lemma {:induction false} DesertedIsCollected(g: Graph, root: Ptr, busy: set<Ptr>, asked: set<Ptr>, p: Ptr)
    requires GraphInv(g, root) && p in g && Deserted(g, busy, p)
    requires p in asked || HasOnward(g, p)
    requires forall q :: q in g && |g[q].keys| > |g[p].keys| ==> q in busy || q in asked || HasOnward(g, q)
    ensures Collected(g, root, busy, asked, p)
    decreases Above(g, p)
  {
    ReachesItself(g, p);
    forall k | k in g[p].ext && g[p].ext[k] != p
      ensures g[p].ext[k] in g && Collected(g, root, busy, asked, g[p].ext[k])
    {
      var q := g[p].ext[k];
      OnwardIsAbove(g, root, p, k);
      assert Leads(g, p, q);
      DesertedOnward(g, busy, p, q);
      ReachesItself(g, q);
      DesertedIsCollected(g, root, busy, asked, q);
    }
  }

  lemma {:induction false} PathIsCollected(g: Graph, root: Ptr, busy: set<Ptr>, asked: set<Ptr>, path: seq<Ptr>)
    requires GraphInv(g, root) && IsPath(g, path) && path[0] in g && Collected(g, root, busy, asked, path[0])
    ensures path[|path| - 1] !in busy
    decreases |path|
  {
    if |path| > 1 {
      assert Leads(g, path[0], path[1]);
      var k :| k in g[path[0]].ext && g[path[0]].ext[k] == path[1];
      OnwardIsAbove(g, root, path[0], k);
      assert forall i :: 0 <= i < |path[1..]| ==> path[1..][i] == path[i + 1];
      PathIsCollected(g, root, busy, asked, path[1..]);
    }
  }

  lemma CollectedIsDeserted(g: Graph, root: Ptr, busy: set<Ptr>, asked: set<Ptr>, p: Ptr)
    requires GraphInv(g, root) && p in g && Collected(g, root, busy, asked, p)
    ensures Deserted(g, busy, p)
  {
    forall q | Reaches(g, p, q) ensures q !in busy {
      var path :| IsPath(g, path) && path[0] == p && path[|path| - 1] == q;
      PathIsCollected(g, root, busy, asked, path);
    }
  }

  /** If every entry is in use, a stepping stone or to be deleted, there is a hazard exactly if one of the
      entries to be deleted leads to others, and nothing it reaches is in use. */
  lemma HazardIff(g: Graph, root: Ptr, busy: set<Ptr>, doomed: set<Ptr>)
    requires GraphInv(g, root) && doomed <= g.Keys
    requires forall q :: q in g ==> q in busy || q in doomed || HasOnward(g, q)
    ensures Hazard(g, root, busy, doomed) <==> exists d :: d in doomed && HasOnward(g, d) && Deserted(g, busy, d)
  {
    if d :| d in doomed && Collected(g, root, busy, doomed - {d}, d) {
      CollectedIsDeserted(g, root, busy, doomed - {d}, d);
      assert HasOnward(g, d);
    }
    if d :| d in doomed && HasOnward(g, d) && Deserted(g, busy, d) {
      DesertedIsCollected(g, root, busy, doomed - {d}, d);
    }
  }

  /** And then exactly the deserted entries are deleted. */
  lemma LeavesIff(g: Graph, root: Ptr, busy: set<Ptr>, doomed: set<Ptr>, left: set<Ptr>, p: Ptr)
    requires GraphInv(g, root) && p in g && Leaves(g, root, busy, doomed, left)
    requires forall q :: q in g ==> q in busy || q in doomed || HasOnward(g, q)
    ensures p !in left <==> Deserted(g, busy, p)
  {
    if p !in left {
      CollectedIsDeserted(g, root, busy, doomed, p);
    } else if Deserted(g, busy, p) {
      ReachesItself(g, p);
      DesertedIsCollected(g, root, busy, doomed, p);
    }
  }

  ghost predicate IsOrderOf<T(!new)>(order: seq<T>, s: set<T>) {
    Elems(order) == s && forall i, j :: 0 <= i < j < |order| ==> order[i] != order[j]
  }

  lemma {:induction false} SomeOrder(s: set<Ptr>) returns (order: seq<Ptr>)
    ensures IsOrderOf(order, s)
    decreases s
  {
    if s == {} {
      order := [];
    } else {
      var x := SomeElement(s);
      var rest := SomeOrder(s - {x});
      order := rest + [x];
      ElemsSnoc(rest, x);
    }
  }

  /** The root, then the key set `{5}`, then `{5, 6}`, in a chain. */
  ghost function Chain(): Graph {
    map[0 := Node({}, map[5 := 1], map[]), 1 := Node({5}, map[5 := 1, 6 := 2], map[5 := 0]),
        2 := Node({5, 6}, map[5 := 2, 6 := 2], map[6 := 1])]
  }

  lemma ChainIsGraph()
    ensures GraphInv(Chain(), 0)
  {
    var g := Chain();
    assert NodeOk(g, 0) by { assert ExtOk(g, 0, 5); }
    assert NodeOk(g, 1) by { assert ExtOk(g, 1, 5) && ExtOk(g, 1, 6) && DeOk(g, 1, 5); }
    assert NodeOk(g, 2) by { assert ExtOk(g, 2, 5) && ExtOk(g, 2, 6) && DeOk(g, 2, 6); }
    assert Canonical(g) by {
      assert 6 in g[2].keys && 6 !in g[1].keys && 5 in g[1].keys && 5 !in g[0].keys;
    }
  }

  lemma ChainLeadsOn()
    ensures HasOnward(Chain(), 0) && HasOnward(Chain(), 1) && !HasOnward(Chain(), 2)
  {
    assert Chain()[0].ext[5] == 1 && Chain()[1].ext[6] == 2;
  }

  /** Deleting the far end of the chain first takes the middle along, which then panics. The other order is
      fine. */
  lemma DeletionCanPanic()
    ensures GraphInv(Chain(), 0) && Elems([2, 1]) == Elems([1, 2]) == {1, 2} <= Chain().Keys
    ensures Panics(Chain(), 0, {0}, [2, 1]) && !Panics(Chain(), 0, {0}, [1, 2])
  {
    ChainIsGraph();
    ChainLeadsOn();
    assert [2, 1][..1] == [2];
    assert Collected(Chain(), 0, {0}, {2}, 2);
    assert PanicsAt(Chain(), 0, {0}, [2, 1], 1);
    FewestKeysFirstNeverPanics(Chain(), 0, {0}, [1, 2]);
  }
}
