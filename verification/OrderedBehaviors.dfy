/** Behaviours ordered by the keys they resolve and depend on (`src/behavior.rs`, `OrderedBehaviorList`). */
module OrderedBehaviors {
  import opened Iters
  import opened Sorting

  type Key = int

  datatype Behavior<B> = Behavior(delegate: B, depCount: int, resolves: set<Key>)

  /** The behaviours that depend on a key, once for each time they name it, and the number of behaviours
      that resolve it. */
  datatype Dependents = Dependents(dependents: seq<int>, resolvers: int)

  // === What an order is === //

  ghost predicate IsPermutation(order: seq<int>, n: int) {
    NoRepeats(order) && forall i :: i in order <==> 0 <= i < n
  }

  ghost predicate DependsOn(depends: seq<seq<Key>>, i: int, k: Key) {
    0 <= i < |depends| && k in depends[i]
  }

  ghost predicate Resolves(resolves: seq<set<Key>>, j: int, k: Key) {
    0 <= j < |resolves| && k in resolves[j]
  }

  /** Every resolver of a key comes before every behaviour that depends on it. */
  ghost predicate Respects(order: seq<int>, depends: seq<seq<Key>>, resolves: seq<set<Key>>) {
    forall p, q, k {:trigger DependsOn(depends, order[p], k), Resolves(resolves, order[q], k)} ::
      0 <= p < |order| && 0 <= q < |order| && DependsOn(depends, order[p], k) && Resolves(resolves, order[q], k) ==>
        q < p
  }

  ghost predicate IsOrder(order: seq<int>, depends: seq<seq<Key>>, resolves: seq<set<Key>>) {
    && |depends| == |resolves| && IsPermutation(order, |depends|)
    && Respects(order, depends, resolves)
  }

  // === Counting what is still open === //

  /** How many of the dependencies are not satisfied yet. */
  function Open(deps: seq<Key>, done: set<Key>): (n: int)
    ensures n >= 0
  {
    if deps == [] then 0 else Open(deps[1..], done) + if deps[0] in done then 0 else 1
  }

  lemma {:induction false} OpenIsZero(deps: seq<Key>, done: set<Key>)
    ensures Open(deps, done) == 0 <==> forall k :: k in deps ==> k in done
  {
    if deps != [] {
      OpenIsZero(deps[1..], done);
      assert forall k :: k in deps <==> k == deps[0] || k in deps[1..];
    }
  }

  /** Satisfying a key closes each of its occurrences. */
  lemma {:induction false} OpenAfter(deps: seq<Key>, done: set<Key>, k: Key)
    requires k !in done
    ensures Open(deps, done + {k}) == Open(deps, done) - multiset(deps)[k]
  {
    if deps != [] {
      OpenAfter(deps[1..], done, k);
      assert deps == [deps[0]] + deps[1..];
    }
  }

  lemma {:induction false} OpenInitially(deps: seq<Key>)
    ensures Open(deps, {}) == |deps|
  {
    if deps != [] { OpenInitially(deps[1..]); }
  }

  /** The behaviours that have yet to resolve a key. */
  ghost function Waiting(resolves: seq<set<Key>>, seen: set<(int, Key)>, k: Key): set<int> {
    set i | 0 <= i < |resolves| && k in resolves[i] && (i, k) !in seen
  }

  lemma NoneWaiting(resolves: seq<set<Key>>, seen: set<(int, Key)>, k: Key)
    requires |Waiting(resolves, seen, k)| == 0
    ensures forall j {:trigger Resolves(resolves, j, k)} :: Resolves(resolves, j, k) ==> (j, k) in seen
  {
    forall j | Resolves(resolves, j, k) ensures (j, k) in seen { assert j !in Waiting(resolves, seen, k); }
  }

  lemma WaitingAfter(resolves: seq<set<Key>>, seen: set<(int, Key)>, i: int, k: Key)
    requires 0 <= i < |resolves| && k in resolves[i] && (i, k) !in seen
    ensures |Waiting(resolves, seen + {(i, k)}, k)| == |Waiting(resolves, seen, k)| - 1
    ensures forall l :: l != k ==> Waiting(resolves, seen + {(i, k)}, l) == Waiting(resolves, seen, l)
  {
    assert Waiting(resolves, seen + {(i, k)}, k) == Waiting(resolves, seen, k) - {i};
  }

  // === The invariants of the sort === //

  /** The parts of a list that the sort looks at. */
  datatype Table = Table(ghost depends: seq<seq<Key>>, resolves: seq<set<Key>>, on: map<Key, Dependents>)

  ghost predicate Registered(t: Table, k: Key)
    requires k in t.on
  {
    && t.on[k].resolvers == |Waiting(t.resolves, {}, k)|
    && (forall i :: i in t.on[k].dependents ==> 0 <= i < |t.depends|)
    && (forall i :: 0 <= i < |t.depends| ==> multiset(t.on[k].dependents)[i] == multiset(t.depends[i])[k])
  }

  ghost predicate TableOk(t: Table) {
    && |t.depends| == |t.resolves|
    && (forall k {:trigger Registered(t, k)} :: k in t.on ==> Registered(t, k))
    && (forall i, k {:trigger k in t.depends[i]} :: 0 <= i < |t.depends| && k in t.depends[i] ==> k in t.on)
    && (forall i, k {:trigger k in t.resolves[i]} :: 0 <= i < |t.resolves| && k in t.resolves[i] ==> k in t.on)
  }

  ghost predicate CountsAre(t: Table, counts: seq<int>, done: set<Key>) {
    |counts| == |t.depends| && forall i :: 0 <= i < |counts| ==> counts[i] == Open(t.depends[i], done)
  }

  /** What is left to resolve, for each key; `done` has those with nothing left. */
  ghost predicate Tracks(t: Table, left: map<Key, int>, seen: set<(int, Key)>, done: set<Key>) {
    && left.Keys == t.on.Keys
    && (forall k :: k in left ==> left[k] == |Waiting(t.resolves, seen, k)|)
    && (forall k :: k in done <==> k in left && left[k] == 0)
  }

  /** A behaviour was started exactly if it has nothing open. */
  ghost predicate Started(counts: seq<int>, ran: seq<int>, ready: seq<int>) {
    && NoRepeats(ran + ready)
    && forall i :: i in ran + ready <==> 0 <= i < |counts| && counts[i] == 0
  }

  /** Whatever ran, ran after all resolvers of its dependencies. */
  ghost predicate RanInOrder(t: Table, ran: seq<int>) {
    forall p, k, j {:trigger DependsOn(t.depends, ran[p], k), Resolves(t.resolves, j, k)} ::
      0 <= p < |ran| && DependsOn(t.depends, ran[p], k) && Resolves(t.resolves, j, k) ==> j in ran[..p]
  }

  /** Marks a key as satisfied for all its dependents, and collects those that became ready. */
  method Satisfy(t: Table, k: Key, counts: seq<int>, ghost done: set<Key>) returns (counts': seq<int>, ready: seq<int>)
    requires TableOk(t) && k in t.on && k !in done && CountsAre(t, counts, done)
    ensures CountsAre(t, counts', done + {k}) && NoRepeats(ready)
    ensures forall i :: i in ready <==> 0 <= i < |counts| && counts[i] > 0 && counts'[i] == 0
  {
    var list := t.on[k].dependents;
    assert Registered(t, k);
    counts', ready := counts, [];
    var m := 0;
    while m < |list|
      invariant 0 <= m <= |list| && |counts'| == |counts| && NoRepeats(ready)
      invariant forall i :: 0 <= i < |counts| ==> counts'[i] == counts[i] - multiset(list[..m])[i]
      invariant forall i :: i in ready <==> 0 <= i < |counts| && counts[i] > 0 && counts'[i] == 0
    {
      var blocked := list[m];
      assert blocked in list;
      assert list[..m + 1] == list[..m] + [blocked];
      OpenAfter(t.depends[blocked], done, k);
      assert list == list[..m] + [blocked] + list[m + 1..];
      assert counts'[blocked] > 0;
      counts' := counts'[blocked := counts'[blocked] - 1];
      if counts'[blocked] == 0 {
        ready := ready + [blocked];
      }
      m := m + 1;
    }
    assert list[..m] == list;
    forall i | 0 <= i < |counts'|
      ensures counts'[i] == Open(t.depends[i], done + {k})
    {
      OpenAfter(t.depends[i], done, k);
    }
  }

  /** A behaviour with nothing open may run: all resolvers of its dependencies did. */
  lemma ReadyMayRun(t: Table, counts: seq<int>, left: map<Key, int>, seen: set<(int, Key)>, done: set<Key>,
                    ran: seq<int>, ready: seq<int>, i: int)
    requires TableOk(t) && CountsAre(t, counts, done) && Tracks(t, left, seen, done) && Started(counts, ran, ready)
    requires forall j, k {:trigger (j, k) in seen} :: (j, k) in seen ==> j in ran
    requires RanInOrder(t, ran) && i in ready
    ensures RanInOrder(t, ran + [i])
  {
    assert i in ran + ready && counts[i] == 0;
    OpenIsZero(t.depends[i], done);
    var all := ran + [i];
    forall p, k, j | 0 <= p < |all| && DependsOn(t.depends, all[p], k) && Resolves(t.resolves, j, k)
      ensures j in all[..p]
    {
      if p < |ran| {
        assert all[p] == ran[p] && all[..p] == ran[..p];
      } else {
        assert all[..p] == ran;
        assert k in done && left[k] == 0;
        NoneWaiting(t.resolves, seen, k);
      }
    }
  }

  /** What never got to run is waiting for something that never got to run. */
  lemma BlockedWaits(t: Table, counts: seq<int>, left: map<Key, int>, seen: set<(int, Key)>, done: set<Key>,
                     ran: seq<int>, i: int)
    returns (k: Key, j: int)
    requires TableOk(t) && CountsAre(t, counts, done) && Tracks(t, left, seen, done) && Started(counts, ran, [])
    requires forall j, k {:trigger (j, k) in seen} :: j in ran && Resolves(t.resolves, j, k) ==> (j, k) in seen
    requires 0 <= i < |counts| && counts[i] > 0
    ensures DependsOn(t.depends, i, k) && Resolves(t.resolves, j, k) && 0 <= j < |counts| && counts[j] > 0
  {
    OpenIsZero(t.depends[i], done);
    k :| k in t.depends[i] && k !in done;
    assert k in t.on && left[k] != 0;
    j := SomeElement(Waiting(t.resolves, seen, k));
    assert ran + [] == ran;
    assert counts[j] == Open(t.depends[j], done);
  }

  /** Then no order exists: the first blocked behaviour of one would come after another. */
  lemma BlockedHaveNoOrder(t: Table, counts: seq<int>, left: map<Key, int>, seen: set<(int, Key)>, done: set<Key>,
                           ran: seq<int>, order: seq<int>, b: int)
    requires TableOk(t) && CountsAre(t, counts, done) && Tracks(t, left, seen, done) && Started(counts, ran, [])
    requires forall j, k {:trigger (j, k) in seen} :: j in ran && Resolves(t.resolves, j, k) ==> (j, k) in seen
    requires 0 <= b < |counts| && counts[b] > 0
    ensures !IsOrder(order, t.depends, t.resolves)
  {
    if IsOrder(order, t.depends, t.resolves) {
      assert b in order;
      var at :| 0 <= at < |order| && order[at] == b;
      assert forall q :: 0 <= q < |order| ==> order[q] in order;
      var p := FirstBlocked(order, counts, at);
      var k, j := BlockedWaits(t, counts, left, seen, done, ran, order[p]);
      var q := ResolverIsBefore(t, order, p, k, j);
    }
  }

  lemma ResolverIsBefore(t: Table, order: seq<int>, p: int, k: Key, j: int) returns (q: int)
    requires IsOrder(order, t.depends, t.resolves) && 0 <= p < |order|
    requires DependsOn(t.depends, order[p], k) && Resolves(t.resolves, j, k)
    ensures 0 <= q < p && order[q] == j
  {
    assert j in order;
    q :| 0 <= q < |order| && order[q] == j;
  }

  lemma {:induction false} FirstBlocked(order: seq<int>, counts: seq<int>, at: int) returns (p: int)
    requires 0 <= at < |order| && forall q :: 0 <= q < |order| ==> 0 <= order[q] < |counts|
    requires counts[order[at]] > 0
    ensures 0 <= p <= at && counts[order[p]] > 0
    ensures forall q :: 0 <= q < p ==> counts[order[q]] <= 0
    decreases at
  {
    if q :| 0 <= q < at && counts[order[q]] > 0 {
      p := FirstBlocked(order, counts, q);
    } else {
      p := at;
    }
  }

  /** If everything ran, it ran in an order. */
  lemma AllRanInOrder(t: Table, counts: seq<int>, ran: seq<int>)
    requires TableOk(t) && |counts| == |t.depends| && Started(counts, ran, []) && RanInOrder(t, ran)
    requires forall i :: 0 <= i < |counts| ==> counts[i] == 0
    ensures IsOrder(ran, t.depends, t.resolves)
  {
    assert ran + [] == ran;
    forall p, q, k | 0 <= p < |ran| && 0 <= q < |ran| && DependsOn(t.depends, ran[p], k)
        && Resolves(t.resolves, ran[q], k)
      ensures q < p
    {
      assert ran[q] in ran[..p];
      var m :| 0 <= m < p && ran[..p][m] == ran[q];
      assert ran[m] == ran[q];
    }
  }

  // === The sort === //

  /** The whole state of the sort between two steps. */
  ghost predicate Underway(t: Table, counts: seq<int>, left: map<Key, int>, seen: set<(int, Key)>, done: set<Key>,
                           ran: seq<int>, ready: seq<int>) {
    && TableOk(t) && CountsAre(t, counts, done) && Tracks(t, left, seen, done) && Started(counts, ran, ready)
    && RanInOrder(t, ran)
  }

  /** Exactly what ran has resolved its keys. */
  ghost predicate SeenIs(t: Table, seen: set<(int, Key)>, ran: seq<int>) {
    forall j, k {:trigger (j, k) in seen} :: (j, k) in seen <==> j in ran && Resolves(t.resolves, j, k)
  }

  /** Before anything ran: the keys nobody resolves are satisfied. */
  method Begin(t: Table, depCounts: seq<int>) returns (counts: seq<int>, left: map<Key, int>, ghost done: set<Key>)
    requires TableOk(t) && |depCounts| == |t.depends|
    requires forall i :: 0 <= i < |depCounts| ==> depCounts[i] == |t.depends[i]|
    ensures CountsAre(t, counts, done) && Tracks(t, left, {}, done)
  {
    counts := depCounts;
    left := map k | k in t.on :: t.on[k].resolvers;
    forall k | k in t.on ensures left[k] == |Waiting(t.resolves, {}, k)| { assert Registered(t, k); }
    forall i | 0 <= i < |counts| ensures counts[i] == Open(t.depends[i], {}) { OpenInitially(t.depends[i]); }
    done := {};
    var keys := t.on.Keys;
    while keys != {}
      invariant keys <= t.on.Keys && CountsAre(t, counts, done)
      invariant forall k :: k in done <==> k in t.on && k !in keys && left[k] == 0
      decreases keys
    {
      var k := AnyOf(keys);
      if t.on[k].resolvers == 0 {
        var ready;
        counts, ready := Satisfy(t, k, counts, done);
        done := done + {k};
      }
      keys := keys - {k};
    }
  }

  /** The behaviours with nothing open, in order. */
  method InitiallyReady(counts: seq<int>) returns (ready: seq<int>)
    ensures Started(counts, [], ready)
  {
    ready := [];
    var i := 0;
    while i < |counts|
      invariant 0 <= i <= |counts| && NoRepeats(ready)
      invariant forall j :: j in ready <==> 0 <= j < i && counts[j] == 0
    {
      if counts[i] == 0 {
        ready := ready + [i];
      }
      i := i + 1;
    }
    assert [] + ready == ready;
  }

  /** One resolved key of the behaviour that just ran. */
  method ResolveKey(t: Table, b: int, k: Key, counts: seq<int>, left: map<Key, int>, ghost seen: set<(int, Key)>,
                    ghost done: set<Key>, ghost ran: seq<int>, ready: seq<int>)
    returns (counts': seq<int>, left': map<Key, int>, ghost done': set<Key>, ready': seq<int>)
    requires Underway(t, counts, left, seen, done, ran, ready)
    requires Resolves(t.resolves, b, k) && (b, k) !in seen
    ensures Underway(t, counts', left', seen + {(b, k)}, done', ran, ready')
  {
    assert k in t.on;
    WaitingAfter(t.resolves, seen, b, k);
    counts', done', ready' := counts, done, ready;
    assert b in Waiting(t.resolves, seen, k);
    left' := left[k := left[k] - 1];
    if left'[k] == 0 {
      var more;
      counts', more := Satisfy(t, k, counts, done);
      done' := done + {k};
      StartedMore(t, counts, counts', ran, ready, more, done, k);
      ready' := ready + more;
    }
  }

  lemma StartedMore(t: Table, counts: seq<int>, counts': seq<int>, ran: seq<int>, ready: seq<int>, more: seq<int>,
                    done: set<Key>, k: Key)
    requires Started(counts, ran, ready) && CountsAre(t, counts, done) && CountsAre(t, counts', done + {k})
    requires k !in done
    requires NoRepeats(more) && forall i :: i in more <==> 0 <= i < |counts| && counts[i] > 0 && counts'[i] == 0
    ensures Started(counts', ran, ready + more)
  {
    var was, now := ran + ready, ran + (ready + more);
    assert now == was + more;
    forall i, j | 0 <= i < j < |now| ensures now[i] != now[j] {
      if i < |was| && j >= |was| { assert was[i] in was && more[j - |was|] in more; }
    }
    forall i ensures i in now <==> 0 <= i < |counts'| && counts'[i] == 0 {
      assert i in now <==> i in was || i in more;
      if 0 <= i < |counts| { OpenAfter(t.depends[i], done, k); }
    }
  }

  /** Runs one ready behaviour, and resolves its keys in the order of a hash set. */
  method RunOne(t: Table, counts: seq<int>, left: map<Key, int>, ghost seen: set<(int, Key)>, ghost done: set<Key>,
                ran: seq<int>, ready: seq<int>)
    returns (counts': seq<int>, left': map<Key, int>, ghost seen': set<(int, Key)>, ghost done': set<Key>,
             ran': seq<int>, ready': seq<int>)
    requires Underway(t, counts, left, seen, done, ran, ready) && SeenIs(t, seen, ran) && ready != []
    ensures Underway(t, counts', left', seen', done', ran', ready') && SeenIs(t, seen', ran')
    ensures |ran'| == |ran| + 1
  {
    var b := ready[|ready| - 1];
    ran', ready' := ran + [b], ready[..|ready| - 1];
    ReadyMayRun(t, counts, left, seen, done, ran, ready, b);
    PopKeepsStarted(counts, ran, ready);
    counts', left', seen', done' := counts, left, seen, done;
    var keys := t.resolves[b];
    while keys != {}
      invariant keys <= t.resolves[b]
      invariant Underway(t, counts', left', seen', done', ran', ready')
      invariant forall j, k {:trigger (j, k) in seen'} ::
        (j, k) in seen' <==> (j, k) in seen || (j == b && k in t.resolves[b] && k !in keys)
      decreases keys
    {
      var k := AnyOf(keys);
      counts', left', done', ready' := ResolveKey(t, b, k, counts', left', seen', done', ran', ready');
      seen' := seen' + {(b, k)};
      keys := keys - {k};
    }
  }

  lemma PopKeepsStarted(counts: seq<int>, ran: seq<int>, ready: seq<int>)
    requires Started(counts, ran, ready) && ready != []
    ensures ready[|ready| - 1] !in ran && 0 <= ready[|ready| - 1] < |counts|
    ensures Started(counts, ran + [ready[|ready| - 1]], ready[..|ready| - 1])
  {
    var n, was := |ready| - 1, ran + ready;
    var b := ready[n];
    var now := (ran + [b]) + ready[..n];
    assert was[|ran| + n] == b && b in was;
    forall i | 0 <= i < |now| ensures now[i] == was[Source(|ran|, n, i)] {}
    forall i, j | 0 <= i < j < |now| ensures now[i] != now[j] {
      assert was[Source(|ran|, n, i)] != was[Source(|ran|, n, j)];
    }
    forall i ensures i in now <==> i in was {
      if i in was {
        var m :| 0 <= m < |was| && was[m] == i;
        var at := if m < |ran| then m else if m == |ran| + n then |ran| else m + 1;
        assert now[at] == i;
      }
      if i in now {
        var m :| 0 <= m < |now| && now[m] == i;
        assert was[Source(|ran|, n, m)] == i;
      }
    }
    assert b !in ran by { assert forall m :: 0 <= m < |ran| ==> was[m] == ran[m]; }
  }

  /** Where an element was before the last of `n + 1` ready ones moved behind the first `m`. */
  function Source(m: int, n: int, i: int): int {
    if i < m then i else if i == m then m + n else i - 1
  }

  // === The list === //

  function ResolvesOf<B>(behaviors: seq<Behavior<B>>): seq<set<Key>> {
    seq(|behaviors|, i requires 0 <= i < |behaviors| => behaviors[i].resolves)
  }

  /** All registered behaviours in an order in which resolvers come before dependents. */
  ghost predicate IsRunOrder<B(!new)>(order: seq<int>, behaviors: seq<Behavior<B>>, depends: seq<seq<Key>>)
    requires |depends| == |behaviors|
  {
    && |order| == |behaviors| && NoRepeats(order)
    && (forall p :: 0 <= p < |order| ==> 0 <= order[p] < |behaviors|)
    && (forall p, q, k {:trigger k in depends[order[p]], k in behaviors[order[q]].resolves} ::
          0 <= p < |order| && 0 <= q < |order| && k in depends[order[p]] && k in behaviors[order[q]].resolves ==> q < p)
  }

  lemma IsRunOrderIff<B(!new)>(order: seq<int>, behaviors: seq<Behavior<B>>, depends: seq<seq<Key>>)
    requires |depends| == |behaviors|
    ensures IsRunOrder(order, behaviors, depends) <==> IsOrder(order, depends, ResolvesOf(behaviors))
  {
    var resolves := ResolvesOf(behaviors);
    if IsRunOrder(order, behaviors, depends) {
      DistinctIsAll(order, |behaviors|);
      forall p, q, k | 0 <= p < |order| && 0 <= q < |order| && DependsOn(depends, order[p], k)
                       && Resolves(resolves, order[q], k)
        ensures q < p
      {
        assert k in depends[order[p]] && k in behaviors[order[q]].resolves;
      }
    }
    if IsOrder(order, depends, resolves) {
      forall p | 0 <= p < |order| ensures 0 <= order[p] < |behaviors| { assert order[p] in order; }
      DistinctIsShort(order, |behaviors|);
      AllIsLong(order, |behaviors|);
      forall p, q, k | 0 <= p < |order| && 0 <= q < |order| && k in depends[order[p]]
                       && k in behaviors[order[q]].resolves
        ensures q < p
      {
        assert DependsOn(depends, order[p], k) && Resolves(resolves, order[q], k);
      }
    }
  }

  /** The behaviours called, in the given order. */
  ghost predicate IsRun<B(!new)>(run: seq<B>, order: seq<int>, behaviors: seq<Behavior<B>>, depends: seq<seq<Key>>) {
    && |depends| == |behaviors| && IsRunOrder(order, behaviors, depends)
    && |run| == |order| && forall p :: 0 <= p < |run| ==> run[p] == behaviors[order[p]].delegate
  }

  /** Kahn's algorithm: an order of all behaviours, or the news that there is none. */
  method Toposort(t: Table, depCounts: seq<int>) returns (blocked: bool, ran: seq<int>)
    requires TableOk(t) && |depCounts| == |t.depends|
    requires forall i :: 0 <= i < |depCounts| ==> depCounts[i] == |t.depends[i]|
    ensures !blocked ==> IsOrder(ran, t.depends, t.resolves)
    ensures blocked ==> forall order :: !IsOrder(order, t.depends, t.resolves)
  {
    var counts, left;
    ghost var done, seen := {}, {};
    counts, left, done := Begin(t, depCounts);
    var ready := InitiallyReady(counts);
    ran := [];
    while ready != []
      invariant Underway(t, counts, left, seen, done, ran, ready) && SeenIs(t, seen, ran)
      decreases |t.depends| - |ran|
    {
      RanIsBounded(t, counts, left, seen, done, ran, ready);
      counts, left, seen, done, ran, ready := RunOne(t, counts, left, seen, done, ran, ready);
    }
    // Everything must have run.
    blocked := exists i :: 0 <= i < |counts| && counts[i] > 0;
    if blocked {
      var b :| 0 <= b < |counts| && counts[b] > 0;
      forall order ensures !IsOrder(order, t.depends, t.resolves) {
        BlockedHaveNoOrder(t, counts, left, seen, done, ran, order, b);
      }
    } else {
      assert forall i :: 0 <= i < |counts| ==> counts[i] == Open(t.depends[i], done);
      AllRanInOrder(t, counts, ran);
    }
  }

  /** Every behaviour runs at most once, so there is an end. */
  lemma RanIsBounded(t: Table, counts: seq<int>, left: map<Key, int>, seen: set<(int, Key)>, done: set<Key>,
                     ran: seq<int>, ready: seq<int>)
    requires Underway(t, counts, left, seen, done, ran, ready) && ready != []
    ensures |ran| < |t.depends|
  {
    var all := ran + ready;
    forall i | 0 <= i < |all| ensures 0 <= all[i] < |counts| { assert all[i] in all; }
    DistinctIsShort(all, |counts|);
  }

  lemma {:induction false} DistinctIsShort(s: seq<int>, n: int)
    requires NoRepeats(s) && n >= 0 && forall i :: 0 <= i < |s| ==> 0 <= s[i] < n
    ensures |s| <= n
    decreases n
  {
    if s != [] {
      if at :| 0 <= at < |s| && s[at] == n - 1 {
        var rest := s[..at] + s[at + 1..];
        DistinctIsShort(rest, n - 1);
      } else {
        assert 0 <= s[0] < n;
        DistinctIsShort(s, n - 1);
      }
    }
  }

  lemma {:induction false} AllIsLong(s: seq<int>, n: int)
    requires n >= 0 && forall i :: 0 <= i < n ==> i in s
    ensures |s| >= n
    decreases n
  {
    if n > 0 {
      assert n - 1 in s;
      var at :| 0 <= at < |s| && s[at] == n - 1;
      var rest := s[..at] + s[at + 1..];
      forall i | 0 <= i < n - 1 ensures i in rest {
        assert i in s;
        var j :| 0 <= j < |s| && s[j] == i;
        assert rest[if j < at then j else j - 1] == i;
      }
      AllIsLong(rest, n - 1);
    }
  }

  /** As many different numbers below `n` as there are: all of them. */
  lemma {:induction false} DistinctIsAll(s: seq<int>, n: int)
    requires NoRepeats(s) && |s| == n && forall i :: 0 <= i < |s| ==> 0 <= s[i] < n
    ensures IsPermutation(s, n)
  {
    forall x | 0 <= x < n ensures x in s {
      if x !in s {
        // Without `x` there is one number too few.
        var t := seq(n, i requires 0 <= i < n => if s[i] > x then s[i] - 1 else s[i]);
        DistinctIsShort(t, n - 1);
      }
    }
  }

  // === Registering behaviours === //

  /** The last behaviour resolves one key more. */
  function WithResolver(on: map<Key, Dependents>, k: Key): map<Key, Dependents> {
    on[k := if k in on then on[k].(resolvers := on[k].resolvers + 1) else Dependents([], 1)]
  }

  /** Behaviour `b` depends on one key more. */
  function WithDependent(on: map<Key, Dependents>, k: Key, b: int): map<Key, Dependents> {
    on[k := if k in on then on[k].(dependents := on[k].dependents + [b]) else Dependents([b], 0)]
  }

  lemma EmptyLastKeepsTable(t: Table)
    requires TableOk(t)
    ensures TableOk(Table(t.depends + [[]], t.resolves + [{}], t.on))
  {
    var u := Table(t.depends + [[]], t.resolves + [{}], t.on);
    forall k | k in u.on ensures Registered(u, k) {
      assert Registered(t, k);
      assert Waiting(u.resolves, {}, k) == Waiting(t.resolves, {}, k);
      assert |t.depends| !in t.on[k].dependents;
    }
  }

  lemma WithResolverElsewhere(t: Table, u: Table, s: set<Key>, k: Key, l: Key)
    requires TableOk(t) && |t.resolves| > 0 && t.resolves[|t.resolves| - 1] == s && l in t.on && l != k
    requires u.depends == t.depends && u.resolves == t.resolves[|t.resolves| - 1 := s + {k}]
    requires u.on == WithResolver(t.on, k)
    ensures Registered(u, l)
  {
    assert Registered(t, l);
    assert Waiting(u.resolves, {}, l) == Waiting(t.resolves, {}, l);
  }

  lemma WithResolverCounted(t: Table, u: Table, s: set<Key>, k: Key)
    requires TableOk(t) && |t.resolves| > 0 && k !in s && t.resolves[|t.resolves| - 1] == s
    requires u.depends == t.depends && u.resolves == t.resolves[|t.resolves| - 1 := s + {k}]
    requires u.on == WithResolver(t.on, k)
    ensures Registered(u, k)
  {
    var n := |t.resolves| - 1;
    assert Waiting(u.resolves, {}, k) == Waiting(t.resolves, {}, k) + {n};
    assert n !in Waiting(t.resolves, {}, k);
    if k in t.on {
      assert Registered(t, k);
    } else {
      assert Waiting(t.resolves, {}, k) == {};
      forall i | 0 <= i < |t.depends| ensures multiset(t.depends[i])[k] == 0 { assert k !in t.depends[i]; }
    }
  }

  lemma WithResolverRegistered(t: Table, u: Table, s: set<Key>, k: Key, l: Key)
    requires TableOk(t) && |t.resolves| > 0 && k !in s && t.resolves[|t.resolves| - 1] == s
    requires u.depends == t.depends && u.resolves == t.resolves[|t.resolves| - 1 := s + {k}]
    requires u.on == WithResolver(t.on, k)
    requires l in u.on
    ensures Registered(u, l)
  {
    if l == k {
      WithResolverCounted(t, u, s, k);
    } else {
      WithResolverElsewhere(t, u, s, k, l);
    }
  }

  lemma WithResolverKeepsTable(depends: seq<seq<Key>>, resolves: seq<set<Key>>, s: set<Key>, on: map<Key, Dependents>,
                               k: Key)
    requires TableOk(Table(depends, resolves + [s], on)) && k !in s
    ensures TableOk(Table(depends, resolves + [s + {k}], WithResolver(on, k)))
  {
    var t, u := Table(depends, resolves + [s], on), Table(depends, resolves + [s + {k}], WithResolver(on, k));
    forall l | l in u.on ensures Registered(u, l) { WithResolverRegistered(t, u, s, k, l); }
    forall i, l | 0 <= i < |u.resolves| && l in u.resolves[i] ensures l in u.on {
      assert l != k ==> l in t.resolves[i];
    }
  }

  lemma WithDependentKeepsTable(depends: seq<seq<Key>>, deps: seq<Key>, resolves: seq<set<Key>>,
                                on: map<Key, Dependents>, k: Key)
    requires TableOk(Table(depends + [deps], resolves, on))
    ensures TableOk(Table(depends + [deps + [k]], resolves, WithDependent(on, k, |depends|)))
  {
    var n := |depends|;
    var t, u := Table(depends + [deps], resolves, on), Table(depends + [deps + [k]], resolves, WithDependent(on, k, n));
    assert multiset(deps + [k]) == multiset(deps) + multiset{k};
    forall l | l in u.on ensures Registered(u, l) {
      if l in t.on { assert Registered(t, l); }
      if l == k && k !in t.on {
        assert Waiting(resolves, {}, k) == {};
        forall i | 0 <= i <= n ensures multiset(t.depends[i])[k] == 0 { assert k !in t.depends[i]; }
      }
      forall i | 0 <= i <= n ensures multiset(u.on[l].dependents)[i] == multiset(u.depends[i])[l] {
        assert i < n ==> u.depends[i] == t.depends[i];
        assert l in t.on ==> multiset(t.on[l].dependents)[i] == multiset(t.depends[i])[l];
        if l == k && k in t.on {
          assert multiset(t.on[k].dependents + [n]) == multiset(t.on[k].dependents) + multiset{n};
        }
        if l == k && k !in t.on { assert u.on[l].dependents == [n] && multiset(t.depends[i])[k] == 0; }
      }
    }
    forall i, l | 0 <= i < |u.depends| && l in u.depends[i] ensures l in u.on {
      if i < n { assert l in t.depends[i]; } else { assert l in deps || l == k; assert l != k ==> l in t.depends[n]; }
    }
  }

  class OrderedBehaviorList<B(!new)> {
    var behaviors: seq<Behavior<B>>
    var on: map<Key, Dependents>
    /** The sorted list, once it was needed. */
    var topos: Option<seq<B>>
    /** What each behaviour was pushed with. */
    ghost var depends: seq<seq<Key>>

    ghost predicate Valid()
      reads this
    {
      && |depends| == |behaviors| && TableOk(Table(depends, ResolvesOf(behaviors), on))
      && (forall i :: 0 <= i < |behaviors| ==> behaviors[i].depCount == |depends[i]|)
      && (topos.Some? ==> exists order :: IsRun(topos.value, order, behaviors, depends))
    }

    constructor ()
      ensures Valid() && behaviors == [] && depends == []
    {
      behaviors, on, topos, depends := [], map[], None, [];
    }

    /** `push_cx`: registers a behaviour, and forgets the sorted list. */
    method Push(delegate: B, deps: seq<Key>, resolves: set<Key>)
      requires Valid()
      modifies this
      ensures Valid() && depends == old(depends) + [deps] && topos == None
      ensures |behaviors| == |old(behaviors)| + 1 && behaviors[..|old(behaviors)|] == old(behaviors)
      ensures behaviors[|old(behaviors)|].delegate == delegate && behaviors[|old(behaviors)|].resolves == resolves
    {
      ghost var resolvesBefore := ResolvesOf(behaviors);
      RegisterResolves(resolves);
      RegisterDepends(deps, resolvesBefore + [resolves]);
      behaviors := behaviors + [Behavior(delegate, |deps|, resolves)];
      depends := depends + [deps];
      topos := None;
      assert ResolvesOf(behaviors) == resolvesBefore + [resolves];
    }

    /** Counts the new behaviour as a resolver of each of its keys. */
    method RegisterResolves(resolves: set<Key>)
      requires Valid()
      modifies this`on
      ensures TableOk(Table(depends + [[]], ResolvesOf(behaviors) + [resolves], on))
    {
      EmptyLastKeepsTable(Table(depends, ResolvesOf(behaviors), on));
      var rest := resolves;
      assert resolves - rest == {};
      while rest != {}
        invariant rest <= resolves
        invariant TableOk(Table(depends + [[]], ResolvesOf(behaviors) + [resolves - rest], on))
        decreases rest
      {
        var k := AnyOf(rest);
        WithResolverKeepsTable(depends + [[]], ResolvesOf(behaviors), resolves - rest, on, k);
        assert resolves - (rest - {k}) == resolves - rest + {k};
        on := WithResolver(on, k);
        rest := rest - {k};
      }
      assert resolves - rest == resolves;
    }

    /** Lists the new behaviour under each of its dependencies. */
    method RegisterDepends(deps: seq<Key>, ghost resolves: seq<set<Key>>)
      requires |depends| == |behaviors| && TableOk(Table(depends + [[]], resolves, on))
      modifies this`on
      ensures TableOk(Table(depends + [deps], resolves, on))
    {
      var i := 0;
      assert deps[..0] == [];
      while i < |deps|
        invariant 0 <= i <= |deps| && TableOk(Table(depends + [deps[..i]], resolves, on))
      {
        WithDependentKeepsTable(depends, deps[..i], resolves, on, deps[i]);
        assert deps[..i + 1] == deps[..i] + [deps[i]];
        on := WithDependent(on, deps[i], |behaviors|);
        i := i + 1;
      }
      assert deps[..i] == deps;
    }

    /** `drive`: calls every behaviour once, in an order in which all resolvers of a key come before all
        behaviours that depend on it. It panics exactly if there is no such order. */
    method Drive() returns (panicked: bool, run: seq<B>)
      requires Valid()
      modifies this`topos
      ensures Valid()
      ensures !panicked ==> exists order :: IsRun(run, order, behaviors, depends)
      ensures panicked ==> run == [] && forall order :: !IsRunOrder(order, behaviors, depends)
      // The sorted list is computed once.
      ensures !panicked ==> topos == Some(run) && (old(topos).Some? ==> topos == old(topos))
    {
      if topos.Some? {
        return false, topos.value;
      }
      var list := behaviors;
      var counts := seq(|list|, i requires 0 <= i < |list| => list[i].depCount);
      var blocked, ran := Toposort(Table(depends, ResolvesOf(list), on), counts);
      if blocked {
        forall order ensures !IsRunOrder(order, behaviors, depends) { IsRunOrderIff(order, behaviors, depends); }
        return true, [];
      }
      IsRunOrderIff(ran, behaviors, depends);
      run := seq(|ran|, i requires 0 <= i < |ran| => list[ran[i]].delegate);
      topos := Some(run);
      assert IsRun(run, ran, behaviors, depends);
      return false, run;
    }
  }
}
