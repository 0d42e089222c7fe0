/** The hash-consed set map (`src/util/set_map.rs`): one entry per set of keys, with memoised
    edges for adding and removing a single key. */
module KeyGraph {
  import opened Arena

  type Key = int

  /** An entry seen as a vertex: its key set and its memoised edges, by key. */
  datatype Node = Node(keys: set<Key>, ext: map<Key, Ptr>, de: map<Key, Ptr>)

  type Graph = map<Ptr, Node>

  /** The set an add edge (or, with `add` false, a remove edge) is meant to lead to. */
  function Target(keys: set<Key>, key: Key, add: bool): set<Key> {
    if add then keys + {key} else keys - {key}
  }

  // === Invariants === //

  /** An add edge means union with its key. It is a self-loop exactly when the key is already there;
      otherwise the far end links back with a remove edge. */
  ghost predicate ExtOk(g: Graph, p: Ptr, k: Key)
    requires p in g && k in g[p].ext
  {
    var q := g[p].ext[k];
    && q in g
    && (k in g[p].keys ==> q == p)
    && (k !in g[p].keys ==> g[q].keys == g[p].keys + {k} && k in g[q].de && g[q].de[k] == p)
  }

  ghost predicate DeOk(g: Graph, p: Ptr, k: Key)
    requires p in g && k in g[p].de
  {
    var q := g[p].de[k];
    && q in g
    && (k !in g[p].keys ==> q == p)
    && (k in g[p].keys ==> g[q].keys == g[p].keys - {k} && k in g[q].ext && g[q].ext[k] == p)
  }

  ghost predicate NodeOk(g: Graph, p: Ptr)
    requires p in g
  {
    && (forall k :: k in g[p].keys ==> k in g[p].ext)
    && (forall k {:trigger ExtOk(g, p, k)} :: k in g[p].ext ==> ExtOk(g, p, k))
    && (forall k {:trigger DeOk(g, p, k)} :: k in g[p].de ==> DeOk(g, p, k))
  }

  ghost predicate Distinct(g: Graph, p: Ptr, q: Ptr)
    requires p in g && q in g
  {
    g[p].keys == g[q].keys ==> p == q
  }

  /** One live entry per key set. */
  ghost predicate Canonical(g: Graph) {
    forall p, q {:trigger Distinct(g, p, q)} :: p in g && q in g ==> Distinct(g, p, q)
  }

  ghost predicate GraphInv(g: Graph, root: Ptr) {
    && root in g && g[root].keys == {}
    && Canonical(g)
    && forall p {:trigger NodeOk(g, p)} :: p in g ==> NodeOk(g, p)
  }

  // === Transformations === //

  function Linked(g: Graph, from: Ptr, key: Key, to: Ptr, add: bool): Graph
    requires from in g
  {
    if add then g[from := g[from].(ext := g[from].ext[key := to])]
    else g[from := g[from].(de := g[from].de[key := to])]
  }

  /** Caching an edge between two existing entries, in both senses unless it is a self-loop. */
  function WithEdge(g: Graph, base: Ptr, key: Key, target: Ptr, add: bool): Graph
    requires base in g && target in g
  {
    var g1 := Linked(g, base, key, target, add);
    if base != target then Linked(g1, target, key, base, !add) else g1
  }

  function SelfLoops(keys: set<Key>, p: Ptr): map<Key, Ptr> {
    map k | k in keys :: p
  }

  /** A newly allocated entry: linked back to its base, with a self-loop for each of its own keys. */
  function NewNode(keys: set<Key>, base: Ptr, key: Key, target: Ptr, add: bool): Node {
    if add then Node(keys, SelfLoops(keys, target), map[key := base])
    else Node(keys, map[key := base] + SelfLoops(keys, target), map[])
  }

  function WithNode(g: Graph, base: Ptr, key: Key, target: Ptr, keys: set<Key>, add: bool): Graph
    requires base in g && target !in g
  {
    Linked(g, base, key, target, add)[target := NewNode(keys, base, key, target, add)]
  }

  function WithoutEdgesTo(edges: map<Key, Ptr>, p: Ptr): map<Key, Ptr> {
    map k | k in edges && edges[k] != p :: edges[k]
  }

  /** The graph after removing `p`: every edge to it is gone. */
  function Unlinked(g: Graph, p: Ptr): Graph {
    map q | q in g && q != p ::
      g[q].(ext := WithoutEdgesTo(g[q].ext, p), de := WithoutEdgesTo(g[q].de, p))
  }

  // === They keep the invariants === //

  lemma ExistingEdgeIsRight(g: Graph, root: Ptr, base: Ptr, key: Key, add: bool)
    requires GraphInv(g, root) && base in g
    requires key in (if add then g[base].ext else g[base].de)
    ensures var q := (if add then g[base].ext else g[base].de)[key];
            q in g && g[q].keys == Target(g[base].keys, key, add)
  {
    assert NodeOk(g, base);
    if add {
      assert ExtOk(g, base, key);
    } else {
      assert DeOk(g, base, key);
    }
  }

  /** Two entries whose sets differ by one key, linked in both senses. */
  function Joined(g: Graph, lo: Ptr, key: Key, hi: Ptr): Graph
    requires lo in g && hi in g
  {
    Linked(Linked(g, lo, key, hi, true), hi, key, lo, false)
  }

  lemma JoinedKeepsInv(g: Graph, root: Ptr, lo: Ptr, key: Key, hi: Ptr)
    requires GraphInv(g, root) && lo in g && hi in g
    requires key !in g[lo].keys && g[hi].keys == g[lo].keys + {key}
    ensures GraphInv(Joined(g, lo, key, hi), root)
  {
    var r := Joined(g, lo, key, hi);
    assert Canonical(r) by {
      forall q1, q2 | q1 in r && q2 in r ensures Distinct(r, q1, q2) { assert Distinct(g, q1, q2); }
    }
    assert key in g[hi].keys;
    forall p | p in r ensures r[p].keys == g[p].keys && NodeOk(r, p) {
      assert NodeOk(g, p);
      forall k | k in r[p].ext ensures ExtOk(r, p, k) {
        if k in g[p].ext { assert ExtOk(g, p, k); }
        if k in g[p].ext && k == key && k !in g[p].keys && g[p].ext[k] == hi {
          assert Distinct(g, p, lo);
        }
      }
      forall k | k in r[p].de ensures DeOk(r, p, k) {
        if k in g[p].de { assert DeOk(g, p, k); }
        if k in g[p].de && k == key && k in g[p].keys && g[p].de[k] == lo {
          assert g[p].keys == g[hi].keys;
          assert Distinct(g, p, hi);
        }
      }
    }
  }

  lemma DeLoopKeepsInv(g: Graph, root: Ptr, p: Ptr, key: Key)
    requires GraphInv(g, root) && p in g && key !in g[p].keys
    ensures GraphInv(Linked(g, p, key, p, false), root)
  {
    var r := Linked(g, p, key, p, false);
    assert Canonical(r) by {
      forall q1, q2 | q1 in r && q2 in r ensures Distinct(r, q1, q2) { assert Distinct(g, q1, q2); }
    }
    forall q | q in r ensures r[q].keys == g[q].keys && NodeOk(r, q) {
      assert NodeOk(g, q);
      forall k | k in r[q].ext ensures ExtOk(r, q, k) { assert ExtOk(g, q, k); }
      forall k | k in r[q].de ensures DeOk(r, q, k) {
        if k in g[q].de { assert DeOk(g, q, k); }
      }
    }
  }

  /** An entry with nothing but the self-loops for its own keys. */
  function Isolated(keys: set<Key>, p: Ptr): Node {
    Node(keys, SelfLoops(keys, p), map[])
  }

  lemma IsolatedKeepsInv(g: Graph, root: Ptr, keys: set<Key>, p: Ptr)
    requires GraphInv(g, root) && p !in g
    requires forall q :: q in g ==> g[q].keys != keys
    ensures GraphInv(g[p := Isolated(keys, p)], root)
  {
    var r := g[p := Isolated(keys, p)];
    assert Canonical(r) by {
      forall q1, q2 | q1 in r && q2 in r ensures Distinct(r, q1, q2) {
        if q1 != p && q2 != p { assert Distinct(g, q1, q2); }
      }
    }
    forall q | q in r ensures NodeOk(r, q) {
      if q != p {
        assert NodeOk(g, q);
        forall k | k in r[q].ext ensures ExtOk(r, q, k) { assert ExtOk(g, q, k); }
        forall k | k in r[q].de ensures DeOk(r, q, k) { assert DeOk(g, q, k); }
      }
    }
  }

  lemma WithEdgeKeepsInv(g: Graph, root: Ptr, base: Ptr, key: Key, target: Ptr, add: bool)
    requires GraphInv(g, root) && base in g && target in g
    requires key !in (if add then g[base].ext else g[base].de)
    requires g[target].keys == Target(g[base].keys, key, add)
    ensures GraphInv(WithEdge(g, base, key, target, add), root)
  {
    assert NodeOk(g, base);
    if base == target {
      assert !add && key !in g[base].keys by {
        assert key in g[base].keys <==> key in g[base].keys;
      }
      DeLoopKeepsInv(g, root, base, key);
    } else if add {
      JoinedKeepsInv(g, root, base, key, target);
    } else {
      assert Distinct(g, base, target);
      assert g[base].keys == g[target].keys + {key};
      assert key !in g[target].keys;
      JoinedKeepsInv(g, root, target, key, base);
      assert WithEdge(g, base, key, target, add) == Joined(g, target, key, base);
    }
  }

  lemma WithNodeKeepsInv(g: Graph, root: Ptr, base: Ptr, key: Key, target: Ptr, keys: set<Key>, add: bool)
    requires GraphInv(g, root) && base in g && target !in g
    requires key !in (if add then g[base].ext else g[base].de)
    requires keys == Target(g[base].keys, key, add)
    requires forall p :: p in g ==> g[p].keys != keys
    ensures GraphInv(WithNode(g, base, key, target, keys, add), root)
  {
    assert NodeOk(g, base);
    var before := g[base].keys;
    IsolatedKeepsInv(g, root, keys, target);
    var g1 := g[target := Isolated(keys, target)];
    WithNodeIsJoined(g, base, key, target, keys, add);
    if add {
      JoinedKeepsInv(g1, root, base, key, target);
    } else {
      assert key !in before ==> before - {key} == before;
      assert g1[base].keys == g1[target].keys + {key};
      JoinedKeepsInv(g1, root, target, key, base);
    }
  }

  lemma WithNodeIsJoined(g: Graph, base: Ptr, key: Key, target: Ptr, keys: set<Key>, add: bool)
    requires base in g && target !in g && (!add ==> key !in keys)
    ensures var g1 := g[target := Isolated(keys, target)];
            WithNode(g, base, key, target, keys, add)
            == if add then Joined(g1, base, key, target) else Joined(g1, target, key, base)
  {
    if !add {
      assert map[key := base] + SelfLoops(keys, target) == SelfLoops(keys, target)[key := base];
    }
  }

  /** Removal leaves no dangling edge, because every edge but a self-loop is doubly linked. */
  lemma UnlinkedKeepsInv(g: Graph, root: Ptr, p: Ptr)
    requires GraphInv(g, root) && p in g && p != root
    ensures GraphInv(Unlinked(g, p), root)
  {
    var r := Unlinked(g, p);
    assert Canonical(r) by {
      forall q1, q2 | q1 in r && q2 in r ensures Distinct(r, q1, q2) { assert Distinct(g, q1, q2); }
    }
    forall q | q in r ensures NodeOk(r, q) {
      assert NodeOk(g, q);
      forall k | k in g[q].keys ensures k in r[q].ext { assert ExtOk(g, q, k); }
      forall k | k in r[q].ext ensures ExtOk(r, q, k) { assert ExtOk(g, q, k); }
      forall k | k in r[q].de ensures DeOk(r, q, k) { assert DeOk(g, q, k); }
    }
  }

  // === What the invariants mean === //

  /** The self-loops witness membership, nothing else does. */
  lemma SelfLoopIsMembership(g: Graph, root: Ptr, p: Ptr, key: Key)
    requires GraphInv(g, root) && p in g
    ensures key in g[p].ext && g[p].ext[key] == p <==> key in g[p].keys
  {
    assert NodeOk(g, p);
    if key in g[p].ext {
      assert ExtOk(g, p, key);
      assert key !in g[p].keys ==> key in g[g[p].ext[key]].keys;
    }
  }
}

module SetMaps {
  import opened Iters
  import opened Arena
  import opened KeyGraph

  datatype Entry = Entry(selfPtr: Option<Ptr>, keys: seq<Key>, ext: map<Key, Ptr>, de: map<Key, Ptr>) {
    function Vertex(): Node {
      Node(Elems(keys), ext, de)
    }

    function Edges(add: bool): map<Key, Ptr> {
      if add then ext else de
    }

    function WithEdge(key: Key, to: Ptr, add: bool): Entry {
      if add then this.(ext := ext[key := to]) else this.(de := de[key := to])
    }

    /** `SetMapEntry::has_key`: the key's extension edge leads back to the entry itself. */
    predicate HasKey(key: Key) {
      key in ext && Some(ext[key]) == selfPtr
    }
  }

  ghost function GraphOf(live: map<Ptr, Entry>): Graph {
    map p | p in live :: live[p].Vertex()
  }

  /** The same entries with the same keys; edges and values may differ. */
  ghost predicate SameSets(before: map<Ptr, Entry>, after: map<Ptr, Entry>) {
    && before.Keys == after.Keys
    && forall p :: p in before ==> after[p].keys == before[p].keys && after[p].selfPtr == before[p].selfPtr
  }

  ghost predicate TableOk(table: set<(int, Ptr)>, hash: seq<Key> -> int, live: map<Ptr, Entry>) {
    && (forall p {:trigger live[p]} :: p in live ==> (hash(live[p].keys), p) in table)
    && (forall e :: e in table ==> e.1 in live && e.0 == hash(live[e.1].keys))
  }

  ghost predicate EntriesOk(live: map<Ptr, Entry>) {
    forall p :: p in live ==> Ascending(live[p].keys) && live[p].selfPtr == Some(p)
  }

  /** What the invariant says about one pointer: its entry is a good vertex of the graph, no other has the same
      keys, and the table knows it, and it only, under the hash of its keys. */
  ghost predicate EntryFits(live: map<Ptr, Entry>, root: Ptr, table: set<(int, Ptr)>, hash: seq<Key> -> int, p: Ptr) {
    && (p == root ==> p in live && live[p].keys == [])
    && (p in live ==>
          && Ascending(live[p].keys) && live[p].selfPtr == Some(p) && (hash(live[p].keys), p) in table
          && NodeOk(GraphOf(live), p) && forall q :: q in live && Elems(live[q].keys) == Elems(live[p].keys) ==> q == p)
    && (forall h :: (h, p) in table ==> p in live && h == hash(live[p].keys))
  }

  /** The invariant of a set map, on its values alone. */
  ghost predicate MapInv(live: map<Ptr, Entry>, root: Ptr, table: set<(int, Ptr)>, hash: seq<Key> -> int) {
    forall p {:trigger EntryFits(live, root, table, hash, p)} :: EntryFits(live, root, table, hash, p)
  }

  lemma MapInvIff(live: map<Ptr, Entry>, root: Ptr, table: set<(int, Ptr)>, hash: seq<Key> -> int)
    ensures MapInv(live, root, table, hash) <==>
      EntriesOk(live) && GraphInv(GraphOf(live), root) && TableOk(table, hash, live)
  {
    var g := GraphOf(live);
    if MapInv(live, root, table, hash) {
      assert EntryFits(live, root, table, hash, root);
      assert Elems<Key>([]) == {};
      forall p | p in live
        ensures NodeOk(g, p) && Ascending(live[p].keys) && live[p].selfPtr == Some(p)
        ensures (hash(live[p].keys), p) in table
      {
        assert EntryFits(live, root, table, hash, p);
      }
      forall p, q | p in g && q in g && g[p].keys == g[q].keys ensures p == q {
        assert EntryFits(live, root, table, hash, p);
      }
      forall h, p | (h, p) in table ensures p in live && h == hash(live[p].keys) {
        assert EntryFits(live, root, table, hash, p);
      }
      assert TableOk(table, hash, live) by {
        forall e | e in table ensures e.1 in live && e.0 == hash(live[e.1].keys) {
          var (h, p) := e;
          assert (h, p) in table;
        }
      }
    }
    if EntriesOk(live) && GraphInv(g, root) && TableOk(table, hash, live) {
      forall p ensures EntryFits(live, root, table, hash, p) {
        if p == root && live[p].keys != [] { HeadInElems(live[p].keys); }
        forall q | p in live && q in live && Elems(live[q].keys) == Elems(live[p].keys) ensures q == p {
          assert Distinct(g, p, q);
        }
      }
    }
  }

  lemma SameSetsKeepMapInv(before: map<Ptr, Entry>, after: map<Ptr, Entry>, root: Ptr,
                              table: set<(int, Ptr)>, hash: seq<Key> -> int)
    requires MapInv(before, root, table, hash) && SameSets(before, after)
    requires GraphInv(GraphOf(after), root)
    ensures MapInv(after, root, table, hash)
  {
    MapInvIff(before, root, table, hash);
    MapInvIff(after, root, table, hash);
    forall e | e in table ensures e.1 in after && e.0 == hash(after[e.1].keys) {
      var (h, p) := e;
      assert (h, p) in table && p in before;
    }
  }

  lemma NewEntryKeepsMapInv(before: map<Ptr, Entry>, after: map<Ptr, Entry>, root: Ptr,
                               table: set<(int, Ptr)>, hash: seq<Key> -> int, p: Ptr)
    requires MapInv(before, root, table, hash) && p in after && p !in before
    requires SameSets(before, after - {p})
    requires Ascending(after[p].keys) && after[p].selfPtr == Some(p)
    requires GraphInv(GraphOf(after), root)
    ensures MapInv(after, root, table + {(hash(after[p].keys), p)}, hash)
  {
    MapInvIff(before, root, table, hash);
    MapInvIff(after, root, table + {(hash(after[p].keys), p)}, hash);
    forall q | q in before
      ensures q in after && after[q].keys == before[q].keys && after[q].selfPtr == before[q].selfPtr
    {
      assert q in after - {p};
    }
    forall q | q in after && q != p ensures q in before {
      assert q in after - {p};
    }
  }

  lemma RemovedEntryKeepsMapInv(before: map<Ptr, Entry>, after: map<Ptr, Entry>, root: Ptr,
                                   table: set<(int, Ptr)>, hash: seq<Key> -> int, p: Ptr)
    requires MapInv(before, root, table, hash) && p in before
    requires SameSets(before - {p}, after)
    requires GraphInv(GraphOf(after), root)
    ensures MapInv(after, root, table - {(hash(before[p].keys), p)}, hash)
  {
    MapInvIff(before, root, table, hash);
    MapInvIff(after, root, table - {(hash(before[p].keys), p)}, hash);
    assert after.Keys == before.Keys - {p};
    forall q | q in after
      ensures q in before && q != p && after[q].keys == before[q].keys && after[q].selfPtr == before[q].selfPtr
    {
      assert q in before - {p};
    }
  }

  class SetMap {
    const arena: FreeListArena<Entry>
    /** The hasher is arbitrary: nothing below depends on it being injective. */
    const hash: seq<Key> -> int
    const root: Ptr
    /** The primary map, a raw table of (hash, pointer) pairs. */
    var table: set<(int, Ptr)>

    ghost const Repr: set<object>

    ghost function Graph(): Graph
      reads arena
    {
      GraphOf(arena.live)
    }

    ghost predicate Valid()
      reads this, arena
    {
      && Repr == {this, arena}
      && arena.Valid()
      && MapInv(arena.live, root, table, hash)
    }

    constructor (hash: seq<Key> -> int)
      ensures Valid() && fresh(Repr)
      ensures this.hash == hash
      ensures Graph() == map[root := Node({}, map[], map[])]
      ensures root in arena.live && arena.live[root].keys == []
    {
      var a := new FreeListArena<Entry>();
      var r, _ := a.Alloc(Entry(None, [], map[], map[]));
      a.Set(r, Entry(Some(r), [], map[], map[]));
      this.arena, this.hash, root := a, hash, r;
      table := {(hash([]), r)};
      Repr := {this, a};
      new;
      assert Elems<Key>([]) == {};
      assert Graph() == map[root := Node({}, map[], map[])];
      assert NodeOk(Graph(), root);
      MapInvIff(arena.live, root, table, hash);
    }

    lemma RootIsEmpty()
      requires Valid()
      ensures root in arena.live && arena.live[root].keys == []
    {
      assert EntryFits(arena.live, root, table, hash, root);
    }

    lemma GraphIsOk()
      requires Valid()
      ensures GraphInv(Graph(), root) && EntriesOk(arena.live) && TableOk(table, hash, arena.live)
    {
      MapInvIff(arena.live, root, table, hash);
    }

    /** Probes the primary map for an entry with exactly these keys. */
    method Find(keys: seq<Key>) returns (found: Option<Ptr>)
      requires Valid()
      ensures found.Some? ==> found.value in arena.live && arena.live[found.value].keys == keys
      ensures found.None? ==> forall p :: p in arena.live ==> arena.live[p].keys != keys
    {
      GraphIsOk();
      var targetHash := hash(keys);
      var candidates := table;
      while candidates != {}
        invariant candidates <= table
        invariant forall e :: e in table - candidates ==> e.1 in arena.live && arena.live[e.1].keys != keys
        decreases candidates
      {
        var candidate := AnyOf(candidates);
        if candidate.0 == targetHash {
          var same := EqIter(keys, arena.Get(candidate.1).keys);
          if same {
            return Some(candidate.1);
          }
        }
        candidates := candidates - {candidate};
      }
      forall p | p in arena.live ensures arena.live[p].keys != keys {
        assert (hash(arena.live[p].keys), p) in table - candidates;
      }
      return None;
    }

    /** Caches one edge of an entry. */
    method PutEdge(from: Ptr, key: Key, to: Ptr, add: bool)
      requires arena.Valid() && from in arena.live
      modifies arena
      ensures arena.Valid()
      ensures arena.live == old(arena.live)[from := old(arena.live)[from].WithEdge(key, to, add)]
    {
      arena.Set(from, arena.Get(from).WithEdge(key, to, add));
    }

    /** The keys of the target set, from the merging or the filtering iterator. */
    method TargetKeys(base: Ptr, key: Key, add: bool) returns (keys: seq<Key>)
      requires Valid() && base in arena.live
      requires key !in arena.live[base].Edges(add)
      ensures Ascending(keys) && Elems(keys) == Target(Elems(arena.live[base].keys), key, add)
    {
      GraphIsOk();
      var baseKeys := arena.Get(base).keys;
      if add {
        // Self-loops make sure that an extension by a key already present never gets here.
        assert NodeOk(Graph(), base);
        assert key !in Graph()[base].keys;
        keys := MergeIters(baseKeys, [key]);
        MergedDisjointIsAscending(baseKeys, [key]);
      } else {
        keys := FilterKey(baseKeys, key);
        WithoutIsDifference(baseKeys, key);
      }
    }

    /** Allocates the entry for a new key set and links it with its base. */
    method Create(base: Ptr, key: Key, keys: seq<Key>, add: bool) returns (target: Ptr)
      requires Valid() && base in arena.live
      requires key !in arena.live[base].Edges(add)
      requires Ascending(keys) && Elems(keys) == Target(Elems(arena.live[base].keys), key, add)
      requires forall p :: p in arena.live ==> arena.live[p].keys != keys
      modifies this, arena
      ensures Valid()
      ensures target !in old(arena.live) && target in arena.live && arena.live[target].keys == keys
      ensures forall p :: p in old(arena.live) ==> p in arena.live && arena.live[p].keys == old(arena.live)[p].keys
      ensures Graph() == WithNode(old(Graph()), base, key, target, Elems(keys), add)
      ensures arena.live.Keys == old(arena.live).Keys + {target}
    {
      ghost var live, oldTable := arena.live, table;
      target := AllocLinked(base, key, keys, add);
      table := table + {(hash(keys), target)};
      WithCreatedViews(live, base, key, target, keys, add);
      WithCreatedKeepsInv(live, root, oldTable, hash, base, key, target, keys, add);
    }

    /** Allocates an entry, links it with its base and completes it with its self-loops. */
    method AllocLinked(base: Ptr, key: Key, keys: seq<Key>, add: bool) returns (target: Ptr)
      requires arena.Valid() && base in arena.live
      modifies arena
      ensures arena.Valid() && target !in old(arena.live)
      ensures arena.live == WithCreated(old(arena.live), base, key, target, keys, add)
    {
      var p, _ := arena.Alloc(Unfinished(keys, base, key, add));
      target := p;
      PutEdge(base, key, target, add);
      arena.Set(target, Completed(arena.Get(target), target));
    }

    /** Caches the edge to an entry that already exists, in both senses unless it is a self-loop. */
    method Link(base: Ptr, key: Key, target: Ptr, add: bool)
      requires Valid() && base in arena.live && target in arena.live
      requires key !in arena.live[base].Edges(add)
      requires Elems(arena.live[target].keys) == Target(Elems(arena.live[base].keys), key, add)
      modifies arena
      ensures Valid() && SameSets(old(arena.live), arena.live)
      ensures Graph() == KeyGraph.WithEdge(old(Graph()), base, key, target, add)
    {
      PutEdge(base, key, target, add);
      if base != target {
        PutEdge(target, key, base, !add);
      }
      WithLinkFacts(old(arena.live), root, table, hash, base, key, target, add);
    }

    /** `lookup_extension_common`: both lookups, with the sense of the positive edge as a flag. The
        third result says whether the entry is new (the caller then runs its post-constructor). */
    method LookupCommon(base: Ptr, key: Key, add: bool) returns (target: Ptr, created: bool)
      requires Valid() && base in arena.live
      modifies this, arena
      ensures Valid()
      ensures target in arena.live
      ensures Elems(arena.live[target].keys) == Target(Elems(old(arena.live)[base].keys), key, add)
      ensures created <==> target !in old(arena.live)
      ensures key in old(arena.live)[base].Edges(add) ==> target == old(arena.live)[base].Edges(add)[key]
      ensures arena.live.Keys == old(arena.live).Keys + {target}
      ensures forall p :: p in old(arena.live) ==> p in arena.live && arena.live[p].keys == old(arena.live)[p].keys
      ensures Graph() ==
        if key in old(arena.live)[base].Edges(add) then old(Graph())
        else if created then WithNode(old(Graph()), base, key, target, Elems(arena.live[target].keys), add)
        else KeyGraph.WithEdge(old(Graph()), base, key, target, add)
    {
      var edges := arena.Get(base).Edges(add);
      created := false;
      if key in edges {
        target := edges[key];
        GraphIsOk();
        assert edges == if add then Graph()[base].ext else Graph()[base].de;
        ExistingEdgeIsRight(Graph(), root, base, key, add);
        return;
      }
      var keys := TargetKeys(base, key, add);
      var found := Find(keys);
      if found.None? {
        created := true;
        target := Create(base, key, keys, add);
        return;
      }
      target := found.value;
      Link(base, key, target, add);
    }

    /** Unlinks the entries that have an add edge (or, with `add` false, a remove edge) to a removed
        entry, given the removed entry's edges of the other sense. */
    method UnlinkReferencers(removed: Ptr, edges: map<Key, Ptr>, add: bool)
      requires arena.Valid() && removed !in arena.live
      requires forall k :: k in edges ==> edges[k] in arena.live || edges[k] == removed
      modifies arena
      ensures arena.Valid()
      ensures arena.live == Stripped(old(arena.live), edges, edges.Keys, add)
    {
      ghost var live := arena.live;
      var rest := edges.Keys;
      StrippedOfNothing(live, edges, add);
      assert edges.Keys - rest == {};
      while rest != {}
        invariant arena.Valid() && rest <= edges.Keys
        invariant arena.live == Stripped(live, edges, edges.Keys - rest, add)
        decreases rest
      {
        var key := AnyOf(rest);
        var referencer := edges[key];
        assert edges.Keys - (rest - {key}) == (edges.Keys - rest) + {key};
        StrippedOneMore(live, edges, edges.Keys - rest, key, add);
        if referencer != removed {
          arena.Set(referencer, StripEntry(arena.Get(referencer), {key}, add));
        }
        rest := rest - {key};
      }
      assert edges.Keys - rest == edges.Keys;
    }

    /** Takes an entry out, unlinking each of its edges from the far end. */
    method Remove(removed: Ptr) returns (data: Entry)
      requires Valid() && removed in arena.live && removed != root
      modifies this, arena
      ensures Valid()
      ensures data == old(arena.live)[removed]
      ensures Graph() == Unlinked(old(Graph()), removed)
      ensures SameSets(old(arena.live) - {removed}, arena.live)
    {
      GraphIsOk();
      FarEndsAreLive(Graph(), root, removed);
      data := arena.Dealloc(removed);
      UnlinkReferencers(removed, data.de, true);
      UnlinkReferencers(removed, data.ext, false);
      WithRemovedViews(old(arena.live), root, removed);
      WithRemovedKeepsInv(old(arena.live), root, table, hash, removed);
      table := table - {(hash(data.keys), removed)};
    }
  }

  // === The new entries, value by value === //

  /** The entries with the edge cached, in both senses unless it is a self-loop. */
  ghost function WithLink(live: map<Ptr, Entry>, base: Ptr, key: Key, target: Ptr, add: bool): map<Ptr, Entry>
    requires base in live && target in live
  {
    var linked := live[base := live[base].WithEdge(key, target, add)];
    if base == target then linked else linked[target := linked[target].WithEdge(key, base, !add)]
  }

  lemma WithLinkViews(live: map<Ptr, Entry>, base: Ptr, key: Key, target: Ptr, add: bool)
    requires base in live && target in live
    ensures SameSets(live, WithLink(live, base, key, target, add))
    ensures GraphOf(WithLink(live, base, key, target, add)) == KeyGraph.WithEdge(GraphOf(live), base, key, target, add)
  {
    var linked := live[base := live[base].WithEdge(key, target, add)];
    LinkedView(live, base, key, target, add);
    LinkedView(linked, target, key, base, !add);
  }

  lemma LinkedView(live: map<Ptr, Entry>, base: Ptr, key: Key, target: Ptr, add: bool)
    requires base in live
    ensures GraphOf(live[base := live[base].WithEdge(key, target, add)])
      == Linked(GraphOf(live), base, key, target, add)
  {
    assert live[base].WithEdge(key, target, add).Vertex() == Linked(GraphOf(live), base, key, target, add)[base];
  }

  lemma WithLinkFacts(live: map<Ptr, Entry>, root: Ptr, table: set<(int, Ptr)>, hash: seq<Key> -> int,
                         base: Ptr, key: Key, target: Ptr, add: bool)
    requires MapInv(live, root, table, hash) && base in live && target in live
    requires key !in live[base].Edges(add)
    requires Elems(live[target].keys) == Target(Elems(live[base].keys), key, add)
    ensures MapInv(WithLink(live, base, key, target, add), root, table, hash)
    ensures SameSets(live, WithLink(live, base, key, target, add))
    ensures GraphOf(WithLink(live, base, key, target, add)) == KeyGraph.WithEdge(GraphOf(live), base, key, target, add)
  {
    MapInvIff(live, root, table, hash);
    WithLinkViews(live, base, key, target, add);
    WithEdgeKeepsInv(GraphOf(live), root, base, key, target, add);
    SameSetsKeepMapInv(live, WithLink(live, base, key, target, add), root, table, hash);
  }

  function Unfinished(keys: seq<Key>, base: Ptr, key: Key, add: bool): Entry {
    Entry(None, keys, map[], map[]).WithEdge(key, base, !add)
  }

  function Completed(e: Entry, p: Ptr): Entry {
    e.(ext := e.ext + (map k | k in e.keys :: p), selfPtr := Some(p))
  }

  function WithCreated(live: map<Ptr, Entry>, base: Ptr, key: Key, target: Ptr, keys: seq<Key>,
                       add: bool): map<Ptr, Entry>
    requires base in live
  {
    live[target := Unfinished(keys, base, key, add)]
        [base := live[base].WithEdge(key, target, add)]
        [target := Completed(Unfinished(keys, base, key, add), target)]
  }

  lemma CompletedVertex(keys: seq<Key>, base: Ptr, key: Key, target: Ptr, add: bool)
    ensures Completed(Unfinished(keys, base, key, add), target).Vertex()
            == NewNode(Elems(keys), base, key, target, add)
  {
    assert (map k | k in keys :: target) == SelfLoops(Elems(keys), target);
    assert map[] + SelfLoops(Elems(keys), target) == SelfLoops(Elems(keys), target);
  }

  lemma WithCreatedGraph(live: map<Ptr, Entry>, base: Ptr, key: Key, target: Ptr, keys: seq<Key>, add: bool)
    requires base in live && target !in live
    ensures GraphOf(WithCreated(live, base, key, target, keys, add))
            == WithNode(GraphOf(live), base, key, target, Elems(keys), add)
  {
    CompletedVertex(keys, base, key, target, add);
    assert live[base].WithEdge(key, target, add).Vertex() == Linked(GraphOf(live), base, key, target, add)[base];
  }

  lemma WithCreatedViews(live: map<Ptr, Entry>, base: Ptr, key: Key, target: Ptr, keys: seq<Key>, add: bool)
    requires base in live && target !in live
    ensures var after := WithCreated(live, base, key, target, keys, add);
            && after.Keys == live.Keys + {target}
            && SameSets(live, after - {target})
            && GraphOf(after) == WithNode(GraphOf(live), base, key, target, Elems(keys), add)
  {
    var after := WithCreated(live, base, key, target, keys, add);
    assert (after - {target}).Keys == live.Keys;
    WithCreatedGraph(live, base, key, target, keys, add);
  }

  lemma WithCreatedKeepsInv(live: map<Ptr, Entry>, root: Ptr, table: set<(int, Ptr)>, hash: seq<Key> -> int,
                               base: Ptr, key: Key, target: Ptr, keys: seq<Key>, add: bool)
    requires MapInv(live, root, table, hash) && base in live && target !in live
    requires key !in live[base].Edges(add)
    requires Ascending(keys) && Elems(keys) == Target(Elems(live[base].keys), key, add)
    requires forall p :: p in live ==> live[p].keys != keys
    ensures MapInv(WithCreated(live, base, key, target, keys, add), root, table + {(hash(keys), target)}, hash)
  {
    var g := GraphOf(live);
    MapInvIff(live, root, table, hash);
    forall p | p in g ensures g[p].keys != Elems(keys) {
      if g[p].keys == Elems(keys) { AscendingIsCanonical(live[p].keys, keys); }
    }
    WithNodeKeepsInv(g, root, base, key, target, Elems(keys), add);
    WithCreatedViews(live, base, key, target, keys, add);
    NewEntryKeepsMapInv(live, WithCreated(live, base, key, target, keys, add), root, table, hash, target);
  }

  /** The keys, among those already handled, whose edge leads to `q`. */
  ghost function KeysTo(edges: map<Key, Ptr>, done: set<Key>, q: Ptr): set<Key>
    requires done <= edges.Keys
  {
    set k | k in done && edges[k] == q
  }

  function StripEntry(e: Entry, gone: set<Key>, add: bool): Entry {
    if add then e.(ext := e.ext - gone) else e.(de := e.de - gone)
  }

  /** The entries without the back-references of some of the edges of a removed entry. */
  ghost function Stripped(live: map<Ptr, Entry>, edges: map<Key, Ptr>, done: set<Key>, add: bool): map<Ptr, Entry>
    requires done <= edges.Keys
  {
    map q | q in live :: StripEntry(live[q], KeysTo(edges, done, q), add)
  }

  lemma StrippedOfNothing(live: map<Ptr, Entry>, edges: map<Key, Ptr>, add: bool)
    ensures Stripped(live, edges, {}, add) == live
  {
    forall q | q in live ensures Stripped(live, edges, {}, add)[q] == live[q] {
      assert KeysTo(edges, {}, q) == {};
      assert live[q].ext - {} == live[q].ext && live[q].de - {} == live[q].de;
    }
  }

  lemma StrippedOne(live: map<Ptr, Entry>, edges: map<Key, Ptr>, done: set<Key>, key: Key, add: bool, q: Ptr)
    requires done <= edges.Keys && key in edges && q in live
    ensures Stripped(live, edges, done + {key}, add)[q] ==
      var s := Stripped(live, edges, done, add)[q]; if q == edges[key] then StripEntry(s, {key}, add) else s
  {
    var gone := KeysTo(edges, done, q);
    assert KeysTo(edges, done + {key}, q) == gone + (if q == edges[key] then {key} else {});
    assert live[q].ext - (gone + {key}) == live[q].ext - gone - {key};
    assert live[q].de - (gone + {key}) == live[q].de - gone - {key};
  }

  lemma StrippedOneMore(live: map<Ptr, Entry>, edges: map<Key, Ptr>, done: set<Key>, key: Key, add: bool)
    requires done <= edges.Keys && key in edges
    ensures var s := Stripped(live, edges, done, add);
            Stripped(live, edges, done + {key}, add) ==
            if edges[key] !in live then s else s[edges[key] := StripEntry(s[edges[key]], {key}, add)]
  {
    var s, t := Stripped(live, edges, done, add), Stripped(live, edges, done + {key}, add);
    forall q | q in live ensures t[q] == if q == edges[key] then StripEntry(s[q], {key}, add) else s[q] {
      StrippedOne(live, edges, done, key, add, q);
    }
  }

  lemma FarEndsAreLive(g: Graph, root: Ptr, p: Ptr)
    requires GraphInv(g, root) && p in g
    ensures forall k :: k in g[p].ext ==> g[p].ext[k] in g
    ensures forall k :: k in g[p].de ==> g[p].de[k] in g
  {
    assert NodeOk(g, p);
    forall k | k in g[p].ext ensures g[p].ext[k] in g { assert ExtOk(g, p, k); }
    forall k | k in g[p].de ensures g[p].de[k] in g { assert DeOk(g, p, k); }
  }

  /** Because edges are doubly linked, the edges of a removed entry name exactly its referencers. */
  lemma ReferencersOf(g: Graph, root: Ptr, p: Ptr, q: Ptr)
    requires GraphInv(g, root) && p in g && q in g && p != q
    ensures KeysTo(g[p].de, g[p].de.Keys, q) == set k | k in g[q].ext && g[q].ext[k] == p
    ensures KeysTo(g[p].ext, g[p].ext.Keys, q) == set k | k in g[q].de && g[q].de[k] == p
  {
    assert NodeOk(g, p) && NodeOk(g, q);
    forall k | k in g[q].ext && g[q].ext[k] == p ensures k in g[p].de && g[p].de[k] == q { assert ExtOk(g, q, k); }
    forall k | k in g[q].de && g[q].de[k] == p ensures k in g[p].ext && g[p].ext[k] == q { assert DeOk(g, q, k); }
    forall k | k in g[p].ext && g[p].ext[k] == q ensures k in g[q].de && g[q].de[k] == p { assert ExtOk(g, p, k); }
    forall k | k in g[p].de && g[p].de[k] == q ensures k in g[q].ext && g[q].ext[k] == p { assert DeOk(g, p, k); }
  }

  ghost function WithRemoved(live: map<Ptr, Entry>, p: Ptr): map<Ptr, Entry>
    requires p in live
  {
    Stripped(Stripped(live - {p}, live[p].de, live[p].de.Keys, true), live[p].ext, live[p].ext.Keys, false)
  }

  lemma RemovedVertex(live: map<Ptr, Entry>, root: Ptr, p: Ptr, q: Ptr)
    requires GraphInv(GraphOf(live), root) && p in live && q in live && p != q
    ensures WithRemoved(live, p)[q].Vertex() == Unlinked(GraphOf(live), p)[q]
  {
    var g, after := GraphOf(live), WithRemoved(live, p);
    ReferencersOf(g, root, p, q);
    assert after[q].ext == WithoutEdgesTo(g[q].ext, p);
    assert after[q].de == WithoutEdgesTo(g[q].de, p);
  }

  lemma WithRemovedViews(live: map<Ptr, Entry>, root: Ptr, p: Ptr)
    requires GraphInv(GraphOf(live), root) && p in live
    ensures GraphOf(WithRemoved(live, p)) == Unlinked(GraphOf(live), p)
    ensures SameSets(live - {p}, WithRemoved(live, p))
  {
    var g, h := GraphOf(WithRemoved(live, p)), Unlinked(GraphOf(live), p);
    forall q | q in live && q != p ensures g[q] == h[q] {
      RemovedVertex(live, root, p, q);
    }
    assert g.Keys == h.Keys == live.Keys - {p};
  }

  lemma WithRemovedKeepsInv(live: map<Ptr, Entry>, root: Ptr, table: set<(int, Ptr)>, hash: seq<Key> -> int, p: Ptr)
    requires MapInv(live, root, table, hash) && p in live && p != root
    ensures MapInv(WithRemoved(live, p), root, table - {(hash(live[p].keys), p)}, hash)
  {
    MapInvIff(live, root, table, hash);
    WithRemovedViews(live, root, p);
    UnlinkedKeepsInv(GraphOf(live), root, p);
    RemovedEntryKeepsMapInv(live, WithRemoved(live, p), root, table, hash, p);
  }

  /** `has_key` is exact on every entry of a valid map. */
  lemma HasKeyIsMembership(live: map<Ptr, Entry>, root: Ptr, p: Ptr, key: Key)
    requires GraphInv(GraphOf(live), root) && EntriesOk(live) && p in live
    ensures live[p].HasKey(key) <==> key in live[p].keys
  {
    SelfLoopIsMembership(GraphOf(live), root, p, key);
  }
}
