/** The archetypes of a database: the hash-consed key graph, each entry's payload, and the index from
    tags to the archetypes that have them (`src/database.rs`, `DbRoot::arch_map` and `DbRoot::tag_map`). */
module ArchetypeIndexes {
  import opened Iters
  import opened Sorting
  import opened Arena
  import opened KeyGraph
  import opened SetMaps
  import opened Collector
  import opened Archetypes
  import opened Layout
  import opened DbState
  import opened Removal
  import opened TagJoin

  // === Payloads === //

  /** The component type each tag manages, if any (a purely virtual tag manages none). */
  type TagTypes = Tag -> Option<CompType>

  function TypesOf(tags: seq<Tag>, types: TagTypes): seq<CompType> {
    if tags == [] then []
    else
      var rest := TypesOf(tags[1..], types);
      if types(tags[0]).Some? then [types(tags[0]).value] + rest else rest
  }

  /** `DbArchetype::new`. */
  function NewArch(tags: seq<Tag>, types: TagTypes): Arch {
    var sorted := SortedCopy(TypesOf(tags, types));
    Arch(tags, Elems(sorted), sorted, [], 0, 0)
  }

  /** The parts of a payload that never change after its construction. */
  ghost predicate Fits(arch: Arch, keys: seq<Tag>, types: TagTypes) {
    var new_ := NewArch(keys, types);
    arch.tags == keys && arch.managed == new_.managed && arch.managedSorted == new_.managedSorted
  }

  lemma ManagedIsSorted(arch: Arch, keys: seq<Tag>, types: TagTypes)
    requires Fits(arch, keys, types)
    ensures Sorted(arch.managedSorted) && Elems(arch.managedSorted) == arch.managed
  {
    SortedCopySorts(TypesOf(keys, types));
  }

  /** An archetype manages a type exactly when one of its tags does. */
  lemma {:induction false} TypesOfIs(tags: seq<Tag>, types: TagTypes, t: CompType)
    ensures t in TypesOf(tags, types) <==> exists i :: 0 <= i < |tags| && types(tags[i]) == Some(t)
  {
    if tags != [] {
      TypesOfIs(tags[1..], types, t);
      if t in TypesOf(tags[1..], types) {
        var i :| 0 <= i < |tags[1..]| && types(tags[1..][i]) == Some(t);
        assert types(tags[i + 1]) == Some(t);
      }
      if i :| 0 <= i < |tags| && types(tags[i]) == Some(t) {
        if i > 0 { assert tags[1..][i - 1] == tags[i]; }
      }
    }
  }

  /** What an archetype manages is what its tags say; the sorted list has each type once for each such tag. */
  ghost predicate ManagesTypes(arch: Arch, types: TagTypes) {
    && (forall t :: t in arch.managed <==> exists k :: 0 <= k < |arch.tags| && types(arch.tags[k]) == Some(t))
    && Sorted(arch.managedSorted) && Elems(arch.managedSorted) == arch.managed
    && forall t :: multiset(arch.managedSorted)[t] == |TagsOf(arch.tags, types, t)|
  }

  lemma FittingManagesTypes(arch: Arch, types: TagTypes)
    requires Fits(arch, arch.tags, types)
    ensures ManagesTypes(arch, types)
  {
    var list := TypesOf(arch.tags, types);
    SortedCopySorts(list);
    SortedCopyIsPermutation(list);
    forall t ensures t in arch.managed <==> exists k :: 0 <= k < |arch.tags| && types(arch.tags[k]) == Some(t) {
      TypesOfIs(arch.tags, types, t);
      assert t in Elems(list) <==> t in list;
    }
    forall t ensures multiset(arch.managedSorted)[t] == |TagsOf(arch.tags, types, t)| {
      TypesOfCounts(arch.tags, types, t);
    }
  }

  /** The positions of the tags with a type. */
  ghost function TagsOf(tags: seq<Tag>, types: TagTypes, t: CompType): set<int> {
    set k | 0 <= k < |tags| && types(tags[k]) == Some(t)
  }

  lemma {:induction false} TypesOfCounts(tags: seq<Tag>, types: TagTypes, t: CompType)
    ensures multiset(TypesOf(tags, types))[t] == |TagsOf(tags, types, t)|
  {
    if tags != [] {
      TypesOfCounts(tags[1..], types, t);
      TagsOfHead(tags, types, t);
    }
  }

  lemma TagsOfHead(tags: seq<Tag>, types: TagTypes, t: CompType)
    requires tags != []
    ensures |TagsOf(tags, types, t)| == |TagsOf(tags[1..], types, t)| + if types(tags[0]) == Some(t) then 1 else 0
  {
    var later := TagsOf(tags, types, t) - {0};
    forall k ensures k in later <==> k - 1 in TagsOf(tags[1..], types, t) {
      if 1 <= k < |tags| { assert tags[1..][k - 1] == tags[k]; }
    }
    ShiftedIsAsLarge(TagsOf(tags[1..], types, t), later);
    assert TagsOf(tags, types, t) == if types(tags[0]) == Some(t) then later + {0} else later;
  }

  lemma {:induction false} ShiftedIsAsLarge(s: set<int>, next: set<int>)
    requires forall k :: k in next <==> k - 1 in s
    ensures |next| == |s|
  {
    if s == {} {
      forall k ensures k !in next { assert k - 1 !in s; }
    } else {
      var k := SomeElement(s);
      assert k + 1 in next;
      ShiftedIsAsLarge(s - {k}, next - {k + 1});
    }
  }

  // === Container lists === //

  lemma {:induction false} WithoutKeepsOrder(s: seq<int>, x: int)
    ensures Elems(Without(s, x)) == Elems(s) - {x}
    ensures NoRepeats(s) ==> NoRepeats(Without(s, x))
  {
    if s != [] {
      WithoutKeepsOrder(s[1..], x);
      ElemsHead(s);
      var w := Without(s[1..], x);
      if s[0] != x { ElemsCons(s[0], w); }
      if NoRepeats(s) {
        assert forall i, j :: 0 <= i < j < |s[1..]| ==> s[1..][i] != s[1..][j];
        assert s[0] !in s[1..];
        if s[0] != x {
          assert s[0] !in Elems(w);
          forall i, j | 0 <= i < j < |[s[0]] + w| ensures ([s[0]] + w)[i] != ([s[0]] + w)[j] {
            assert w[j - 1] in Elems(w);
            if i > 0 { assert w[i - 1] != w[j - 1]; }
          }
        }
      }
    }
  }

  /** A tag's entry after one archetype with it was freed: dropped when it was the last. */
  function Untagged(tags: TagMap, t: Tag, a: Ptr): TagMap
    requires t in tags
  {
    var rest := Without(tags[t].containers, a);
    if rest == [] then tags - {t} else tags[t := tags[t].(containers := rest)]
  }

  /** A tag's entry after an archetype with it was created. */
  function Tagged(tags: TagMap, t: Tag, a: Ptr): TagMap {
    var before := if t in tags then tags[t].containers else [];
    tags[t := TagInfo(before + [a], false)]
  }

  /** The index during the loops over the tags of `a`: `a` is listed exactly under `listed`. */
  ghost predicate IndexedBut(tags: TagMap, arches: Arches, a: Ptr, listed: set<Tag>) {
    && a !in arches
    && (forall t {:trigger TagBut(tags, arches, a, listed, t)} :: t in tags ==> TagBut(tags, arches, a, listed, t))
    && (forall b {:trigger Indexed(tags, b, arches[b])} :: b in arches ==> Indexed(tags, b, arches[b]))
    && (forall t :: t in listed ==> t in tags && a in tags[t].containers)
  }

  ghost predicate TagBut(tags: TagMap, arches: Arches, a: Ptr, listed: set<Tag>, t: Tag)
    requires t in tags
  {
    var c := tags[t].containers;
    && c != [] && NoRepeats(c)
    && (forall b :: b in c ==> if b == a then t in listed else b in arches && t in arches[b].tags)
    && (tags[t].sorted ==> Ascending(c))
  }

  lemma UntaggedKeepsIndex(tags: TagMap, arches: Arches, a: Ptr, listed: set<Tag>, t: Tag)
    requires IndexedBut(tags, arches, a, listed) && t in listed
    ensures t in tags && IndexedBut(Untagged(tags, t, a), arches, a, listed - {t})
  {
    var after := Untagged(tags, t, a);
    var c := tags[t].containers;
    assert TagBut(tags, arches, a, listed, t);
    WithoutKeepsOrder(c, a);
    if tags[t].sorted { WithoutIsDifference(c, a); }
    forall u | u in after ensures TagBut(after, arches, a, listed - {t}, u) {
      assert TagBut(tags, arches, a, listed, u);
      if u == t {
        forall b | b in after[t].containers ensures b in arches && t in arches[b].tags {
          assert b in Elems(Without(c, a));
          assert b in c && b != a;
        }
      }
    }
    forall b | b in arches ensures Indexed(after, b, arches[b]) {
      assert Indexed(tags, b, arches[b]);
      forall u | u in arches[b].tags ensures u in after && b in after[u].containers {
        if u == t {
          assert b in Elems(c) - {a};
          assert b in Elems(Without(c, a));
          assert b in Without(c, a);
        }
      }
    }
  }

  lemma TaggedKeepsIndex(tags: TagMap, arches: Arches, a: Ptr, listed: set<Tag>, t: Tag)
    requires IndexedBut(tags, arches, a, listed) && t !in listed
    ensures IndexedBut(Tagged(tags, t, a), arches, a, listed + {t})
  {
    var after := Tagged(tags, t, a);
    if t in tags { assert TagBut(tags, arches, a, listed, t); }
    forall u | u in after ensures TagBut(after, arches, a, listed + {t}, u) {
      if u in tags { assert TagBut(tags, arches, a, listed, u); }
    }
    forall b | b in arches ensures Indexed(after, b, arches[b]) { assert Indexed(tags, b, arches[b]); }
  }

  lemma IndexWithAll(tags: TagMap, arches: Arches, a: Ptr, arch: Arch)
    requires a !in arches && IndexedBut(tags, arches, a, Elems(arch.tags))
    ensures TagIndex(tags, arches[a := arch])
  {
    var after := arches[a := arch];
    forall t | t in tags ensures TagOk(tags, after, t) {
      assert TagBut(tags, arches, a, Elems(arch.tags), t);
      forall b | b in tags[t].containers ensures b in after && t in after[b].tags {
        if b == a { assert t in Elems(arch.tags); }
      }
    }
    forall b | b in after ensures Indexed(tags, b, after[b]) {
      if b != a {
        assert Indexed(tags, b, arches[b]);
      } else {
        forall t | t in arch.tags ensures t in tags && a in tags[t].containers { assert t in Elems(arch.tags); }
      }
    }
  }

  lemma IndexWithNone(tags: TagMap, arches: Arches, a: Ptr)
    requires IndexedBut(tags, arches, a, {})
    ensures TagIndex(tags, arches)
  {
    forall t | t in tags ensures TagOk(tags, arches, t) {
      assert TagBut(tags, arches, a, {}, t);
    }
  }

  lemma IndexSplit(tags: TagMap, arches: Arches, a: Ptr)
    requires TagIndex(tags, arches)
    ensures a in arches ==> IndexedBut(tags, arches - {a}, a, Elems(arches[a].tags))
    ensures a !in arches ==> IndexedBut(tags, arches, a, {})
  {
    var listed := if a in arches then Elems(arches[a].tags) else {};
    forall t | t in tags ensures TagBut(tags, arches - {a}, a, listed, t) { assert TagOk(tags, arches, t); }
    forall b | b in arches - {a} ensures Indexed(tags, b, (arches - {a})[b]) { assert Indexed(tags, b, arches[b]); }
    if a in arches {
      assert Indexed(tags, a, arches[a]);
    } else {
      assert arches - {a} == arches;
    }
  }

  /** A tag's containers once sorted. */
  function SortedTag(tags: TagMap, t: Tag): TagMap {
    if t in tags && !tags[t].sorted then tags[t := TagInfo(SortedCopy(tags[t].containers), true)] else tags
  }

  lemma {:induction false} SortedCopyKeepsDistinct(s: seq<Ptr>)
    requires NoRepeats(s)
    ensures Ascending(SortedCopy(s)) && NoRepeats(SortedCopy(s)) && forall x :: x in SortedCopy(s) <==> x in s
    ensures SortedCopy(s) == [] ==> s == []
  {
    SortedCopySorts(s);
    SortedCopyIsAscending(s);
    forall x ensures x in SortedCopy(s) <==> x in s { assert x in Elems(SortedCopy(s)) <==> x in Elems(s); }
  }

  lemma SortedTagKeepsIndex(tags: TagMap, arches: Arches, t: Tag)
    requires TagIndex(tags, arches)
    ensures TagIndex(SortedTag(tags, t), arches)
  {
    var after := SortedTag(tags, t);
    if t in tags && !tags[t].sorted {
      assert TagOk(tags, arches, t);
      SortedCopyKeepsDistinct(tags[t].containers);
      forall u | u in after ensures TagOk(after, arches, u) {
        if u != t { assert TagOk(tags, arches, u); }
      }
      forall a | a in arches ensures Indexed(after, a, arches[a]) {
        assert Indexed(tags, a, arches[a]);
      }
    }
  }

  /** The containers listed for a tag, none if it was never seen. */
  function ContainersOf(tags: TagMap, t: Tag): seq<Ptr> {
    if t in tags then tags[t].containers else []
  }

  /** The containers of a tag are exactly the live archetypes that have it. */
  lemma ContainersAreExact(tags: TagMap, arches: Arches, t: Tag, a: Ptr)
    requires TagIndex(tags, arches)
    ensures a in ContainersOf(tags, t) <==> a in arches && t in arches[a].tags
  {
    if t in tags { assert TagOk(tags, arches, t); }
    if a in arches { assert Indexed(tags, a, arches[a]); }
  }

  ghost predicate HasAll(arches: Arches, tags: seq<Tag>, a: Ptr) {
    a in arches && forall k {:trigger tags[k]} :: 0 <= k < |tags| ==> tags[k] in arches[a].tags
  }

  lemma InAllIsHasAll(tags: TagMap, arches: Arches, list: seq<Tag>, lists: seq<seq<Ptr>>, a: Ptr)
    requires TagIndex(tags, arches) && list != [] && |lists| == |list|
    requires forall k {:trigger lists[k]} :: 0 <= k < |list| ==> lists[k] == ContainersOf(tags, list[k])
    ensures InAll(lists, a) <==> HasAll(arches, list, a)
  {
    forall k | 0 <= k < |list| ensures a in lists[k] <==> a in arches && list[k] in arches[a].tags {
      ContainersAreExact(tags, arches, list[k], a);
    }
    if InAll(lists, a) {
      assert a in lists[0];
      forall k | 0 <= k < |list| ensures list[k] in arches[a].tags { assert a in lists[k]; }
    }
    if HasAll(arches, list, a) {
      forall k | 0 <= k < |lists| ensures a in lists[k] { assert list[k] in arches[a].tags; }
    }
  }

  // === Linking keeps stepping stones === //

  /** Nothing that had an onward edge loses it, and the smaller of the two ends gains one. */
  ghost predicate OnwardAfterLink(g: Graph, r: Graph, base: Ptr, target: Ptr, add: bool) {
    && g.Keys <= r.Keys && base in r && target in r
    && (forall p {:trigger HasOnward(r, p)} :: p in g && HasOnward(g, p) ==> HasOnward(r, p))
    && (base != target ==> HasOnward(r, if add then base else target))
  }

  lemma WithEdgeOnward(g: Graph, root: Ptr, base: Ptr, key: Key, target: Ptr, add: bool)
    requires GraphInv(g, root) && base in g && target in g
    requires key !in (if add then g[base].ext else g[base].de)
    requires g[target].keys == Target(g[base].keys, key, add)
    ensures OnwardAfterLink(g, KeyGraph.WithEdge(g, base, key, target, add), base, target, add)
  {
    var r := KeyGraph.WithEdge(g, base, key, target, add);
    assert NodeOk(g, base) && NodeOk(g, target);
    forall p | p in g && HasOnward(g, p) ensures HasOnward(r, p) {
      var k :| k in g[p].ext && g[p].ext[k] != p;
      assert NodeOk(g, p) && ExtOk(g, p, k);
      if !add && p == target && k == key && base != target {
        assert r[p].ext[k] == base;
      } else {
        assert r[p].ext[k] == g[p].ext[k];
      }
    }
    if base != target {
      assert r[if add then base else target].ext[key] == if add then target else base;
    }
  }

  lemma WithNodeOnward(g: Graph, base: Ptr, key: Key, target: Ptr, keys: set<Key>, add: bool)
    requires base in g && target !in g && (add ==> key !in g[base].ext) && (!add ==> key !in keys)
    ensures OnwardAfterLink(g, WithNode(g, base, key, target, keys, add), base, target, add)
  {
    var r := WithNode(g, base, key, target, keys, add);
    forall p | p in g && HasOnward(g, p) ensures HasOnward(r, p) {
      var k :| k in g[p].ext && g[p].ext[k] != p;
      assert r[p].ext[k] == g[p].ext[k];
    }
    assert r[if add then base else target].ext[key] == if add then target else base;
  }

  lemma OldEdgeOnward(g: Graph, root: Ptr, base: Ptr, key: Key, add: bool)
    requires GraphInv(g, root) && base in g && key in (if add then g[base].ext else g[base].de)
    ensures var target := (if add then g[base].ext else g[base].de)[key];
      OnwardAfterLink(g, g, base, target, add)
  {
    assert NodeOk(g, base);
    if add {
      assert ExtOk(g, base, key);
    } else {
      assert DeOk(g, base, key);
    }
  }

  lemma LookupOnward(g: Graph, r: Graph, root: Ptr, base: Ptr, key: Key, target: Ptr, keys: set<Key>, add: bool)
    requires GraphInv(g, root) && base in g && keys == Target(g[base].keys, key, add)
    requires var edges := if add then g[base].ext else g[base].de;
      if key in edges then r == g && target == edges[key]
      else if target in g then g[target].keys == keys && r == KeyGraph.WithEdge(g, base, key, target, add)
      else r == WithNode(g, base, key, target, keys, add)
    ensures OnwardAfterLink(g, r, base, target, add)
  {
    if key in (if add then g[base].ext else g[base].de) {
      OldEdgeOnward(g, root, base, key, add);
    } else if target in g {
      WithEdgeOnward(g, root, base, key, target, add);
    } else {
      WithNodeOnward(g, base, key, target, keys, add);
    }
  }

  /** All archetypes after an entity changed what it wants from `old_` to `target`. */
  ghost function Retagged(arches: Arches, root: Ptr, old_: Ptr, target: Ptr, fresh_: Arch): Arches
    requires old_ in arches
  {
    var mid := Counted(arches, root, old_, -1);
    Counted(if target in mid then mid else mid[target := fresh_], root, target, 1)
  }

  // === The index === //

  class ArchetypeIndex {
    const graph: SetMap
    const types: TagTypes
    /** The payload of each entry. */
    var arches: Arches
    var tags: TagMap

    ghost const Repr: set<object>

    ghost predicate Matches()
      reads this, graph.arena
    {
      && arches.Keys == graph.arena.live.Keys
      && forall a {:trigger Fits(arches[a], graph.arena.live[a].keys, types)} ::
           a in arches ==> Fits(arches[a], graph.arena.live[a].keys, types)
    }

    ghost predicate Valid()
      reads this, graph, graph.arena
    {
      && Repr == {this, graph, graph.arena} && graph.Valid()
      && Matches() && TagIndex(tags, arches)
    }

    ghost function Graph(): Graph
      reads graph.arena
    {
      graph.Graph()
    }

    constructor (hash: seq<Key> -> int, types: TagTypes)
      ensures Valid() && fresh(Repr)
      ensures Graph() == map[graph.root := Node({}, map[], map[])]
      ensures arches == map[graph.root := NewArch([], types)] && tags == map[]
    {
      var g := new SetMap(hash);
      graph, this.types := g, types;
      arches, tags := map[g.root := NewArch([], types)], map[];
      Repr := {this, g, g.arena};
      new;
      assert g.arena.live.Keys == Graph().Keys;
    }

    lemma Built()
      requires Valid()
      ensures WellBuilt(arches, graph.root)
    {
      forall a | a in arches ensures WellBuiltArch(arches[a]) {
        assert Fits(arches[a], graph.arena.live[a].keys, types);
        ManagedIsSorted(arches[a], graph.arena.live[a].keys, types);
      }
      graph.RootIsEmpty();
      assert Fits(arches[graph.root], graph.arena.live[graph.root].keys, types);
    }

    /** The tags of an archetype are the keys of its entry. */
    lemma TagsAreKeys(a: Ptr)
      requires Valid() && a in arches
      ensures a in Graph() && Elems(arches[a].tags) == Graph()[a].keys
    {
      assert Fits(arches[a], graph.arena.live[a].keys, types);
    }

    lemma RootHasNoTags()
      requires Valid()
      ensures graph.root in arches && arches[graph.root].tags == []
    {
      graph.RootIsEmpty();
      assert Fits(arches[graph.root], graph.arena.live[graph.root].keys, types);
    }

    /** An archetype manages exactly the types of its tags; purely virtual tags add none. */
    lemma ManagesItsTypes(a: Ptr)
      requires Valid() && a in arches
      ensures ManagesTypes(arches[a], types)
    {
      assert Fits(arches[a], graph.arena.live[a].keys, types);
      FittingManagesTypes(arches[a], types);
    }

    /** The index does not depend on the layout of archetypes. */
    twostate lemma StillIndexed()
      requires old(Valid()) && unchanged(this`tags, graph, graph.arena) && SameBuild(old(arches), arches)
      ensures Valid()
    {
      forall a | a in arches ensures Fits(arches[a], graph.arena.live[a].keys, types) {
        assert Fits(old(arches)[a], graph.arena.live[a].keys, types);
      }
      SameTagsKeepIndex(tags, old(arches), arches);
    }

    /** `has_key` on an archetype's entry: the entry has a self-loop for the tag. */
    method HasTag(a: Ptr, tag: Tag) returns (has: bool)
      requires Valid() && a in arches
      ensures has <==> tag in arches[a].tags
    {
      assert Fits(arches[a], graph.arena.live[a].keys, types);
      has := graph.arena.Get(a).HasKey(tag);
      graph.GraphIsOk();
      HasKeyIsMembership(graph.arena.live, graph.root, a, tag);
    }

    /** `can_remove_archetype`. */
    method CanRemove(a: Ptr) returns (removable: bool)
      requires Valid() && a in arches
      ensures removable <==> Removable(Graph(), Busy(arches, graph.root), a)
    {
      // We can't remove the root, nor archetypes with entities in them.
      if a == graph.root || arches[a].heaps != [] || arches[a].virtualCount > 0 {
        return false;
      }
      // We shouldn't remove stepping stones to other archetypes.
      var ext := graph.arena.Get(a).ext;
      assert ext == Graph()[a].ext;
      removable := !(exists k | k in ext :: ext[k] != a);
    }

    /** Takes an archetype out of the containers of each of its tags. */
    method Unindex(a: Ptr, list: seq<Tag>)
      requires Ascending(list) && IndexedBut(tags, arches, a, Elems(list))
      modifies this`tags
      ensures TagIndex(tags, arches)
    {
      var i := 0;
      assert list[0..] == list;
      while i < |list|
        invariant 0 <= i <= |list|
        invariant IndexedBut(tags, arches, a, Elems(list[i..]))
      {
        var t := list[i];
        ElemsHead(list[i..]);
        assert list[i..][1..] == list[i + 1..];
        // The entry must exist: the source calls its absence unreachable.
        UntaggedKeepsIndex(tags, arches, a, Elems(list[i..]), t);
        tags := Untagged(tags, t, a);
        i := i + 1;
      }
      assert list[i..] == [] && Elems<Tag>([]) == {};
      IndexWithNone(tags, arches, a);
    }

    /** Adds a new archetype to the containers of each of its tags. */
    method Index(a: Ptr, list: seq<Tag>)
      requires Ascending(list) && IndexedBut(tags, arches, a, {})
      modifies this`tags
      ensures IndexedBut(tags, arches, a, Elems(list))
    {
      var i := 0;
      assert Elems(list[..0]) == {};
      while i < |list|
        invariant 0 <= i <= |list|
        invariant IndexedBut(tags, arches, a, Elems(list[..i]))
      {
        var t := list[i];
        assert list[..i + 1] == list[..i] + [t];
        ElemsSnoc(list[..i], t);
        assert t !in list[..i];
        TaggedKeepsIndex(tags, arches, a, Elems(list[..i]), t);
        tags := Tagged(tags, t, a);
        i := i + 1;
      }
      assert list[..i] == list;
    }

    /** Frees one archetype: its entry, its payload and its place in the tag index. */
    method Free(a: Ptr) returns (de: map<Key, Ptr>)
      requires Valid() && a in arches && a != graph.root
      modifies this, graph, graph.arena
      ensures Valid() && de == old(Graph())[a].de
      ensures Graph() == Minus(old(Graph()), {a}) && arches == old(arches) - {a}
    {
      graph.GraphIsOk();
      MinusOne(Graph(), a);
      IndexSplit(tags, arches, a);
      assert Fits(arches[a], graph.arena.live[a].keys, types) && Ascending(arches[a].tags);
      var data := graph.Remove(a);
      var arch := arches[a];
      arches := arches - {a};
      Unindex(a, arch.tags);
      de := data.de;
    }

    /** `rec_remove_stepping_stone_arches`: frees an archetype, then each predecessor that became
        removable by it. `r` is all that was freed. */
    method RecRemove(a: Ptr, ghost busy: set<Ptr>) returns (ghost r: set<Ptr>)
      requires Valid() && a in arches && graph.root in busy
      requires forall b :: b in arches ==> (b in busy <==> b in Busy(arches, graph.root))
      requires Removable(Graph(), busy, a)
      modifies this, graph, graph.arena
      ensures Valid()
      ensures IsCollection(old(Graph()), busy, {a}, r)
      ensures Graph() == Minus(old(Graph()), r) && arches == old(arches) - r
      decreases |Graph()[a].keys|, 2
    {
      ghost var g := Graph();
      graph.GraphIsOk();
      RemovingStart(g, graph.root, busy, a);
      var de := Free(a);
      r := VisitPredecessors(a, de, busy, g);
      RemovingEnd(g, graph.root, busy, a, r);
      MapMinusTwice(old(arches), {a}, r);
      r := {a} + r;
    }

    /** The loop over the remove edges of the freed archetype `a`. */
    method VisitPredecessors(a: Ptr, de: map<Key, Ptr>, ghost busy: set<Ptr>, ghost g: Graph)
      returns (ghost r: set<Ptr>)
      requires Valid() && graph.root in busy
      requires forall b :: b in arches ==> (b in busy <==> b in Busy(arches, graph.root))
      requires Removing(g, graph.root, busy, a, {}, {}) && Graph() == Minus(g, {a}) == Minus(Minus(g, {a}), {})
      requires de == g[a].de
      modifies this, graph, graph.arena
      ensures Valid() && arches == old(arches) - r
      ensures Removing(g, graph.root, busy, a, de.Keys, r) && Graph() == Minus(Minus(g, {a}), r)
      decreases |g[a].keys|, 1
    {
      var rest := de.Keys;
      r := {};
      MapMinusTwice(arches, {}, {});
      assert de.Keys - rest == {};
      while rest != {}
        invariant Valid() && rest <= de.Keys
        invariant Removing(g, graph.root, busy, a, de.Keys - rest, r)
        invariant Graph() == Minus(Minus(g, {a}), r) && arches == old(arches) - r
        decreases rest
      {
        var key := AnyOf(rest);
        assert de.Keys - (rest - {key}) == de.Keys - rest + {key};
        ghost var gone := VisitPredecessor(a, de, key, busy, g, de.Keys - rest, r);
        MapMinusTwice(old(arches), r, gone);
        r := r + gone;
        rest := rest - {key};
      }
      assert de.Keys - rest == de.Keys;
    }

    /** One iteration of the loop over the remove edges of the freed archetype `a`. */
    method VisitPredecessor(a: Ptr, de: map<Key, Ptr>, key: Key, ghost busy: set<Ptr>,
                            ghost g: Graph, ghost done: set<Key>, ghost r: set<Ptr>) returns (ghost gone: set<Ptr>)
      requires Valid() && graph.root in busy
      requires forall b :: b in arches ==> (b in busy <==> b in Busy(arches, graph.root))
      requires Removing(g, graph.root, busy, a, done, r) && Graph() == Minus(Minus(g, {a}), r)
      requires de == g[a].de && key in de && key !in done
      modifies this, graph, graph.arena
      ensures Valid() && arches == old(arches) - gone
      ensures Removing(g, graph.root, busy, a, done + {key}, r + gone) && Graph() == Minus(Minus(g, {a}), r + gone)
      decreases |g[a].keys|, 0
    {
      var src := de[key];
      var removable := false;
      if src != a {
        NextPredecessor(g, graph.root, busy, a, done, r, key);
        assert src in Graph() && Graph()[src].keys == g[src].keys;
        removable := CanRemove(src);
      }
      if removable {
        gone := RecRemove(src, busy);
        RemovingMore(g, graph.root, busy, a, done, r, key, gone);
      } else {
        gone := {};
        MapMinusTwice(arches, {}, {});
        RemovingSame(g, graph.root, busy, a, done, r, key);
        assert r + {} == r;
      }
    }

    /** The end of a flush: removes each archetype in the order of a hash set. It looks each of them up,
        and panics on one that an earlier removal took along. */
    method RemoveInOrder(order: seq<Ptr>, ghost busy: set<Ptr>)
      returns (panicked: bool, ghost count: int, ghost r: set<Ptr>)
      requires Valid() && Elems(order) <= arches.Keys && busy == Busy(arches, graph.root)
      modifies this, graph, graph.arena
      ensures Valid()
      ensures Deleting(old(Graph()), graph.root, busy, order, count, r)
      ensures panicked ==> count < |order| && order[count] in r
      ensures !panicked ==> count == |order|
      ensures Graph() == Minus(old(Graph()), r) && arches == old(arches) - r
    {
      ghost var g := Graph();
      r, count := {}, 0;
      graph.GraphIsOk();
      DeletingStart(g, graph.root, busy, order);
      MapMinusTwice(arches, {}, {});
      var i := 0;
      while i < |order|
        invariant Valid() && count == i
        invariant Deleting(g, graph.root, busy, order, i, r)
        invariant Graph() == Minus(g, r) && arches == old(arches) - r
      {
        var a := order[i];
        assert a in Elems(order);
        if a !in arches {
          panicked := true;
          return;
        }
        ghost var gone := RemoveNext(a, g, busy, order, i, r);
        MapMinusTwice(old(arches), r, gone);
        r := r + gone;
        i := i + 1;
        count := i;
      }
      panicked := false;
    }

    /** Removes the next archetype, and the stepping stones to it, unless it is in use. */
    method RemoveNext(a: Ptr, ghost g: Graph, ghost busy: set<Ptr>, ghost order: seq<Ptr>, ghost i: int,
                      ghost r: set<Ptr>)
      returns (ghost gone: set<Ptr>)
      requires Valid()
      requires Deleting(g, graph.root, busy, order, i, r) && i < |order| && order[i] == a
      requires Graph() == Minus(g, r) && a in arches && graph.root in busy
      requires forall b :: b in arches ==> (b in busy <==> b in Busy(arches, graph.root))
      modifies this, graph, graph.arena
      ensures Valid() && arches == old(arches) - gone
      ensures Deleting(g, graph.root, busy, order, i + 1, r + gone) && Graph() == Minus(g, r + gone)
    {
      gone := RemoveIfUnused(a, busy);
      DeletingTried(g, graph.root, busy, order, i, r, gone);
    }

    /** Removes an archetype, and the stepping stones to it, unless it is in use. */
    method RemoveIfUnused(a: Ptr, ghost busy: set<Ptr>) returns (ghost gone: set<Ptr>)
      requires Valid() && a in arches && graph.root in busy
      requires forall b :: b in arches ==> (b in busy <==> b in Busy(arches, graph.root))
      modifies this, graph, graph.arena
      ensures Valid() && arches == old(arches) - gone && Graph() == Minus(old(Graph()), gone)
      ensures Tried(old(Graph()), busy, a, gone)
    {
      var removable := CanRemove(a);
      if removable {
        gone := RecRemove(a, busy);
      } else {
        gone := {};
        MapMinusTwice(arches, {}, {});
        MinusNothing(Graph());
      }
    }

    /** Adjusts the number of entities that want an archetype; those that want the root are not counted. */
    method Count(a: Ptr, delta: int)
      requires Valid() && a in arches
      modifies this`arches
      ensures Valid() && arches == Counted(old(arches), graph.root, a, delta)
    {
      if a != graph.root {
        arches := arches[a := arches[a].(virtualCount := arches[a].virtualCount + delta)];
      }
      StillIndexed();
    }

    /** `enumerate_tag_intersection`: the archetypes that have all the given tags, in ascending order. The
        containers of those tags are sorted on the way. */
    method Intersect(list: seq<Tag>) returns (result: seq<Ptr>)
      requires Valid()
      modifies this`tags
      ensures Valid() && Ascending(result)
      ensures forall a :: a in result <==> list != [] && HasAll(arches, list, a)
    {
      if list == [] {
        return [];
      }
      var lists := SortContainers(list);
      result := Join(lists);
      forall a ensures a in result <==> HasAll(arches, list, a) {
        InAllIsHasAll(tags, arches, list, lists, a);
      }
    }

    /** Sorts the containers of each of the tags, and collects them. */
    method SortContainers(list: seq<Tag>) returns (lists: seq<seq<Ptr>>)
      requires Valid()
      modifies this`tags
      ensures Valid() && |lists| == |list| && AllAscending(lists)
      ensures forall k {:trigger lists[k]} :: 0 <= k < |list| ==> lists[k] == ContainersOf(tags, list[k])
    {
      var i := 0;
      while i < |list|
        invariant 0 <= i <= |list| && Valid()
        invariant forall k {:trigger list[k]} :: 0 <= k < i ==> list[k] in tags ==> tags[list[k]].sorted
      {
        SortedTagKeepsIndex(tags, arches, list[i]);
        tags := SortedTag(tags, list[i]);
        i := i + 1;
      }
      lists := [];
      i := 0;
      while i < |list|
        invariant 0 <= i <= |list| && |lists| == i && AllAscending(lists)
        invariant forall k {:trigger lists[k]} :: 0 <= k < i ==> lists[k] == ContainersOf(tags, list[k])
      {
        if list[i] in tags { assert TagOk(tags, arches, list[i]); }
        lists := lists + [ContainersOf(tags, list[i])];
        i := i + 1;
      }
    }

    /** `lookup_extension` and `lookup_de_extension` on archetypes, with their post-constructor. */
    method Lookup(base: Ptr, tag: Tag, add: bool) returns (target: Ptr)
      requires Valid() && base in arches
      modifies this, graph, graph.arena
      ensures Valid() && target in arches
      ensures Elems(arches[target].tags) == Target(Elems(old(arches)[base].tags), tag, add)
      ensures target in old(arches) ==> arches == old(arches)
      ensures target !in old(arches) ==>
        arches == old(arches)[target := NewArch(arches[target].tags, types)]
      ensures ManagesTypes(arches[target], types)
      ensures OnwardAfterLink(old(Graph()), Graph(), base, target, add)
    {
      var created;
      assert Fits(arches[base], graph.arena.live[base].keys, types);
      target, created := FollowEdge(base, tag, add);
      assert target in arches ==> Fits(arches[target], graph.arena.live[target].keys, types);
      if created {
        Register(target);
      }
      ManagesItsTypes(target);
    }

    /** One entity less wants `base`, and one more the archetype with the changed tags. */
    method Retarget(base: Ptr, tag: Tag, add: bool) returns (target: Ptr, ghost fresh_: Arch)
      requires Valid() && base in arches
      modifies this, graph, graph.arena
      ensures Valid() && arches == Retagged(old(arches), graph.root, base, target, fresh_)
      ensures HasNoHeaps(fresh_) && fresh_.virtualCount == 0
      ensures Elems(arches[target].tags) == Target(Elems(old(arches)[base].tags), tag, add)
      ensures Graph().Keys == old(Graph()).Keys + {target}
      ensures OnwardAfterLink(old(Graph()), Graph(), base, target, add)
    {
      ghost var tags := arches[base].tags;
      Count(base, -1);
      assert arches[base].tags == tags;
      target := Lookup(base, tag, add);
      fresh_ := NewArch(arches[target].tags, types);
      Count(target, 1);
    }

    /** The lookup in the graph alone. */
    method FollowEdge(base: Ptr, tag: Tag, add: bool) returns (target: Ptr, created: bool)
      requires Repr == {this, graph, graph.arena} && graph.Valid() && base in graph.arena.live
      modifies graph, graph.arena
      ensures graph.Valid() && target in graph.arena.live
      ensures created <==> target !in old(graph.arena.live)
      ensures graph.arena.live.Keys == old(graph.arena.live).Keys + {target}
      ensures Elems(graph.arena.live[target].keys) == Target(Elems(old(graph.arena.live)[base].keys), tag, add)
      ensures forall p :: p in old(graph.arena.live) ==> graph.arena.live[p].keys == old(graph.arena.live)[p].keys
      ensures OnwardAfterLink(old(Graph()), Graph(), base, target, add)
    {
      ghost var g := Graph();
      graph.GraphIsOk();
      target, created := graph.LookupCommon(base, tag, add);
      LookupOnward(g, Graph(), graph.root, base, tag, target, Elems(graph.arena.live[target].keys), add);
    }

    /** Gives a new entry its payload, and indexes it. */
    method Register(a: Ptr)
      requires Repr == {this, graph, graph.arena} && graph.Valid() && a in graph.arena.live && a !in arches
      requires arches.Keys + {a} == graph.arena.live.Keys && TagIndex(tags, arches)
      requires forall b {:trigger Fits(arches[b], graph.arena.live[b].keys, types)} ::
        b in arches ==> Fits(arches[b], graph.arena.live[b].keys, types)
      modifies this
      ensures Valid() && arches == old(arches)[a := NewArch(graph.arena.live[a].keys, types)]
    {
      graph.GraphIsOk();
      var arch := NewArch(graph.arena.Get(a).keys, types);
      IndexSplit(tags, arches, a);
      Index(a, arch.tags);
      IndexWithAll(tags, arches, a, arch);
      arches := arches[a := arch];
    }
  }
}
