/** Event lists with versions, and the loop that drains two of them into each other (`src/event.rs`). */
module Events {
  import opened Iters
  import opened Heaps

  type QueryKey = int

  datatype Fired = Fired(target: Entity, event: int)

  /** What the version of a list stands for. */
  datatype Version = Stamp(gen: int, len: int)

  /** A list at some moment. */
  datatype Moment = Moment(gen: int, events: seq<Fired>) {
    function Version(): Version { Stamp(gen, |events|) }
  }

  /** Between two moments of a list, events were only appended, unless it was cleared. */
  ghost predicate Later(m: Moment, n: Moment) {
    m.gen <= n.gen && (m.gen == n.gen ==> m.events <= n.events)
  }

  /** Equal versions mean equal contents, across any number of clears. */
  lemma VersionsAreFaithful(m: Moment, n: Moment)
    requires Later(m, n)
    ensures m.Version() == n.Version() <==> m == n
  {
    if m.Version() == n.Version() {
      assert n.events[..|m.events|] == n.events;
    }
  }

  /** The events that concern one of the matching entities. */
  function Matching(events: seq<Fired>, matches: Entity -> bool): seq<Fired> {
    if events == [] then []
    else
      var front := Matching(events[..|events| - 1], matches);
      if matches(events[|events| - 1].target) then front + [events[|events| - 1]] else front
  }

  lemma {:induction false} MatchingOfSum(a: seq<Fired>, b: seq<Fired>, matches: Entity -> bool)
    ensures Matching(a + b, matches) == Matching(a, matches) + Matching(b, matches)
    decreases |b|
  {
    if b == [] {
      assert a + b == a;
    } else {
      var n := |b| - 1;
      MatchingOfSum(a, b[..n], matches);
      assert (a + b)[..|a + b| - 1] == a + b[..n];
    }
  }

  /** The events picked are exactly those that concern a matching entity, in order. */
  lemma {:induction false} MatchingPicks(events: seq<Fired>, matches: Entity -> bool) returns (at: seq<int>)
    ensures Picks(events, at, Matching(events, matches))
    ensures forall i :: i in at <==> 0 <= i < |events| && matches(events[i].target)
  {
    at := [];
    if events != [] {
      var n := |events| - 1;
      var front := MatchingPicks(events[..n], matches);
      PicksLonger(events, front, Matching(events[..n], matches), matches(events[n].target));
      at := if matches(events[n].target) then front + [n] else front;
      forall i ensures i in at <==> 0 <= i < |events| && matches(events[i].target) {
        assert i in front <==> 0 <= i < n && matches(events[..n][i].target);
      }
    }
  }

  lemma PicksLonger<T>(s: seq<T>, at: seq<int>, r: seq<T>, last: bool)
    requires s != [] && Picks(s[..|s| - 1], at, r)
    ensures Picks(s, if last then at + [|s| - 1] else at, if last then r + [s[|s| - 1]] else r)
  {
  }

  lemma MatchingOneMore(events: seq<Fired>, start: int, i: int, matches: Entity -> bool)
    requires 0 <= start <= i < |events|
    ensures Matching(events[start..i + 1], matches)
            == Matching(events[start..i], matches) + (if matches(events[i].target) then [events[i]] else [])
  {
    assert events[start..i + 1][..i - start] == events[start..i];
  }

  lemma MatchingFrom(events: seq<Fired>, start: int, matches: Entity -> bool)
    requires 0 <= start <= |events|
    ensures Matching(events[..|events|], matches)
            == Matching(events[..start], matches) + Matching(events[start..|events|], matches)
  {
    assert events[..|events|] == events[..start] + events[start..|events|];
    MatchingOfSum(events[..start], events[start..|events|], matches);
  }

  class VecEventList {
    var gen: int
    var events: seq<Fired>
    /** Up to where each query key has processed the list. */
    var positions: map<QueryKey, int>
    /** All that was delivered to each query key since the last clear. */
    ghost var delivered: map<QueryKey, seq<Fired>>
    /** What each query key looks for. */
    const matches: QueryKey -> Entity -> bool

    /** Each key got each of the events it looks for exactly once, in order, up to its position. */
    ghost predicate Valid()
      reads this
    {
      && delivered.Keys == positions.Keys
      && forall k {:trigger positions[k]} :: k in positions ==>
           0 <= positions[k] <= |events| && delivered[k] == Matching(events[..positions[k]], matches(k))
    }

    ghost function Now(): Moment
      reads this
    {
      Moment(gen, events)
    }

    constructor (matches: QueryKey -> Entity -> bool)
      ensures Valid() && events == [] && gen == 0 && this.matches == matches
    {
      gen, events, positions, delivered := 0, [], map[], map[];
      this.matches := matches;
    }

    function CurrentVersion(): (v: Version)
      reads this
      ensures v == Now().Version()
    {
      Stamp(gen, |events|)
    }

    method Fire(target: Entity, event: int)
      requires Valid()
      modifies this`events
      ensures Valid() && events == old(events) + [Fired(target, event)] && Later(old(Now()), Now())
    {
      events := events + [Fired(target, event)];
      assert forall k :: k in positions ==> events[..positions[k]] == old(events)[..positions[k]];
    }

    method Clear()
      requires Valid()
      modifies this
      ensures Valid() && events == [] && gen == old(gen) + 1 && Later(old(Now()), Now())
    {
      gen, events, positions, delivered := gen + 1, [], map[], map[];
    }

    /** `drive_query`, for a handler that always continues: delivers what the key has not seen yet. */
    method DriveQuery(key: QueryKey) returns (items: seq<Fired>)
      requires Valid()
      modifies this`positions, this`delivered
      ensures Valid() && key in delivered && delivered[key] == Matching(events, matches(key))
      ensures delivered[key] == (if key in old(delivered) then old(delivered)[key] else []) + items
      ensures forall k :: k in old(delivered) && k != key ==> k in delivered && delivered[k] == old(delivered)[k]
    {
      var start := if key in positions then positions[key] else 0;
      ghost var before := if key in delivered then delivered[key] else [];
      assert before == Matching(events[..start], matches(key));
      positions := positions[key := |events|];
      items := Unseen(key, start);
      assert events[..|events|] == events;
      delivered := delivered[key := before + items];
    }

    /** The loop of `drive_query`. */
    method Unseen(key: QueryKey, start: int) returns (items: seq<Fired>)
      requires 0 <= start <= |events|
      ensures Matching(events[..|events|], matches(key)) == Matching(events[..start], matches(key)) + items
    {
      items := [];
      var i := start;
      assert events[start..start] == [];
      while i < |events|
        invariant start <= i <= |events| && items == Matching(events[start..i], matches(key))
      {
        MatchingOneMore(events, start, i, matches(key));
        if matches(key)(events[i].target) {
          items := items + [events[i]];
        }
        i := i + 1;
      }
      MatchingFrom(events, start, matches(key));
    }
  }

  // === Draining === //

  /** What the handler does to the list it may write, the next time it is called. */
  datatype Response = Response(clears: bool, fires: seq<Fired>, breaks: bool)

  /** What it was shown: the contents of the primary or of the secondary list. */
  datatype Call = Call(ofPrimary: bool, contents: seq<Fired>)

  /** How a run of the loop ended; a run may go on for ever, so only the given responses are looked at. */
  datatype End = Drained | Broke | Unfinished

  datatype Lists = Lists(primary: Moment, secondary: Moment) {
    function Of(ofPrimary: bool): Moment { if ofPrimary then primary else secondary }
  }

  /** A list after the handler wrote to it. */
  function Responded(m: Moment, r: Response): Moment {
    if r.clears then Moment(m.gen + 1, r.fires) else Moment(m.gen, m.events + r.fires)
  }

  /** The handler left the list alone. */
  predicate Quiet(r: Response) {
    !r.clears && r.fires == []
  }

  /** A list's version tells whether the handler left it alone. */
  lemma VersionTells(m: Moment, r: Response)
    ensures Later(m, Responded(m, r)) && (Responded(m, r).Version() == m.Version() <==> Quiet(r))
  {
    VersionsAreFaithful(m, Responded(m, r));
  }

  /** The lists after `k` calls, which read the primary and the secondary list in turns and write the other. */
  ghost function Called(w: Lists, script: seq<Response>, k: int): Lists
    requires 0 <= k <= |script|
  {
    if k == 0 then w
    else
      var before := Called(w, script, k - 1);
      if k % 2 == 1 then before.(secondary := Responded(before.secondary, script[k - 1]))
      else before.(primary := Responded(before.primary, script[k - 1]))
  }

  /** The calls so far: each used the next response, read the lists in turns and was shown what was there. */
  ghost predicate CallsAre(calls: seq<Call>, w: Lists, script: seq<Response>) {
    && |calls| <= |script|
    && forall i {:trigger calls[i]} :: 0 <= i < |calls| ==>
         && calls[i].ofPrimary == (i % 2 == 0)
         && calls[i].contents == Called(w, script, i).Of(calls[i].ofPrimary).events
  }

  /** Of `n` responses none before the last broke off, and none but perhaps the first left its list alone. */
  ghost predicate WentOn(script: seq<Response>, n: int) {
    n <= |script| && forall i :: 0 <= i < n - 1 ==> !script[i].breaks && (0 < i ==> !Quiet(script[i]))
  }

  method Respond(writer: VecEventList, r: Response)
    requires writer.Valid()
    modifies writer
    ensures writer.Valid() && writer.Now() == Responded(old(writer.Now()), r)
  {
    if r.clears {
      writer.Clear();
    }
    ghost var start := writer.Now();
    var i := 0;
    while i < |r.fires|
      invariant 0 <= i <= |r.fires| && writer.Valid()
      invariant writer.Now() == Moment(start.gen, start.events + r.fires[..i])
    {
      assert r.fires[..i + 1] == r.fires[..i] + [r.fires[i]];
      writer.Fire(r.fires[i].target, r.fires[i].event);
      i := i + 1;
    }
    assert r.fires[..i] == r.fires && [] + r.fires == r.fires;
  }

  /** One call of the handler. */
  method CallHandler(reader: VecEventList, writer: VecEventList, ofPrimary: bool, r: Response, calls: seq<Call>)
    returns (calls': seq<Call>)
    requires reader != writer && reader.Valid() && writer.Valid()
    modifies writer
    ensures reader.Valid() && writer.Valid() && writer.Now() == Responded(old(writer.Now()), r)
    ensures calls' == calls + [Call(ofPrimary, reader.events)]
  {
    calls' := calls + [Call(ofPrimary, reader.events)];
    Respond(writer, r);
  }

  lemma CalledOnce(calls: seq<Call>, w: Lists, script: seq<Response>, ofPrimary: bool)
    requires CallsAre(calls, w, script) && |calls| < |script| && ofPrimary == (|calls| % 2 == 0)
    ensures var n := |calls|;
      && CallsAre(calls + [Call(ofPrimary, Called(w, script, n).Of(ofPrimary).events)], w, script)
      && Called(w, script, n + 1).Of(ofPrimary) == Called(w, script, n).Of(ofPrimary)
      && Called(w, script, n + 1).Of(!ofPrimary) == Responded(Called(w, script, n).Of(!ofPrimary), script[n])
  {
  }

  /** `drain_recursive_breakable`. It breaks off at once when the handler says so, and otherwise ends as soon as
      the handler left a list alone that it had seen before: then the last two calls showed it all there is. */
  method Drain(primary: VecEventList, secondary: VecEventList, script: seq<Response>)
    returns (end: End, calls: seq<Call>)
    requires primary != secondary && primary.Valid() && secondary.Valid()
    modifies primary, secondary
    ensures primary.Valid() && secondary.Valid()
    ensures CallsAre(calls, old(Lists(primary.Now(), secondary.Now())), script)
    ensures Lists(primary.Now(), secondary.Now())
      == Called(old(Lists(primary.Now(), secondary.Now())), script, |calls|)
    ensures WentOn(script, |calls|)
    ensures end.Broke? <==> |calls| > 0 && script[|calls| - 1].breaks
    ensures end.Drained? <==> |calls| > 1 && !script[|calls| - 1].breaks && Quiet(script[|calls| - 1])
    ensures end.Unfinished? ==> |calls| == |script|
    ensures end.Drained? ==>
      forall c :: c in calls[|calls| - 2..] ==> c.contents == (if c.ofPrimary then primary else secondary).events
  {
    ghost var w := Lists(primary.Now(), secondary.Now());
    calls := [];
    if |script| == 0 {
      return Unfinished, calls;
    }
    CalledOnce(calls, w, script, true);
    calls := CallHandler(primary, secondary, true, script[0], calls);
    if script[0].breaks {
      return Broke, calls;
    }
    var primaryVersion, secondaryVersion := primary.CurrentVersion(), secondary.CurrentVersion();
    if |script| == 1 {
      return Unfinished, calls;
    }
    CalledOnce(calls, w, script, false);
    calls := CallHandler(secondary, primary, false, script[1], calls);
    if script[1].breaks {
      return Broke, calls;
    }
    end, calls := DrainOn(primary, primaryVersion, secondary, secondaryVersion, script, calls, w);
    if end.Drained? {
      LastTwo(calls, w, script);
    }
  }

  /** If the last call left its list alone, the last two calls showed the lists as they are now. */
  lemma LastTwo(calls: seq<Call>, w: Lists, script: seq<Response>)
    requires CallsAre(calls, w, script) && |calls| > 1 && Quiet(script[|calls| - 1])
    ensures forall c :: c in calls[|calls| - 2..] ==> c.contents == Called(w, script, |calls|).Of(c.ofPrimary).events
  {
    var n := |calls|;
    assert calls[n - 2..] == [calls[n - 2], calls[n - 1]];
    var m := Called(w, script, n - 1).Of(n % 2 == 1);
    assert m.events + script[n - 1].fires == m.events;
    assert calls[n - 1].ofPrimary == (n % 2 == 1) && calls[n - 2].ofPrimary == (n % 2 == 0);
  }

  /** Both lists with their recorded versions, at the head of the loop after `n` calls. The reader was written by
      the last call; the writer is as it was when the handler saw it. */
  ghost predicate AtHead(reader: VecEventList, readerVersion: Version, writer: VecEventList, writerVersion: Version,
                         ofPrimary: bool, w: Lists, script: seq<Response>, n: int)
    reads reader, writer
  {
    && reader != writer && reader.Valid() && writer.Valid()
    && 0 < n <= |script| && ofPrimary == (n % 2 == 0)
    && reader.Now() == Called(w, script, n).Of(ofPrimary) && writer.Now() == Called(w, script, n).Of(!ofPrimary)
    && readerVersion == Called(w, script, n - 1).Of(ofPrimary).Version()
    && writerVersion == writer.Now().Version()
  }

  /** The loop proper. At its head the list in the writer's role is as it was when the handler saw it. */
  method DrainOn(primary: VecEventList, primaryVersion: Version, secondary: VecEventList, secondaryVersion: Version,
                 script: seq<Response>, calls0: seq<Call>, ghost w: Lists)
    returns (end: End, calls: seq<Call>)
    requires |calls0| == 2 && CallsAre(calls0, w, script) && WentOn(script, 2) && !script[1].breaks
    requires AtHead(primary, primaryVersion, secondary, secondaryVersion, true, w, script, 2)
    modifies primary, secondary
    ensures primary.Valid() && secondary.Valid() && |calls| >= 2
    ensures CallsAre(calls, w, script) && Lists(primary.Now(), secondary.Now()) == Called(w, script, |calls|)
    ensures WentOn(script, |calls|)
    ensures end.Broke? <==> script[|calls| - 1].breaks
    ensures end.Drained? <==> !script[|calls| - 1].breaks && Quiet(script[|calls| - 1])
    ensures end.Unfinished? ==> |calls| == |script|
  {
    var reader, readerVersion, writer, writerVersion, ofPrimary :=
      primary, primaryVersion, secondary, secondaryVersion, true;
    calls := calls0;
    while true
      invariant |calls| >= 2 && CallsAre(calls, w, script)
      invariant WentOn(script, |calls|) && !script[|calls| - 1].breaks
      invariant reader == (if ofPrimary then primary else secondary)
      invariant writer == if ofPrimary then secondary else primary
      invariant AtHead(reader, readerVersion, writer, writerVersion, ofPrimary, w, script, |calls|)
      decreases |script| - |calls|
    {
      var i := |calls|;
      // Was the reader updated since it was last processed?
      VersionTells(Called(w, script, i - 1).Of(ofPrimary), script[i - 1]);
      if reader.CurrentVersion() == readerVersion {
        return Drained, calls;
      }
      if i == |script| {
        return Unfinished, calls;
      }
      readerVersion := reader.CurrentVersion();
      CalledOnce(calls, w, script, ofPrimary);
      calls := CallHandler(reader, writer, ofPrimary, script[i], calls);
      if script[i].breaks {
        return Broke, calls;
      }
      // The writer may have been updated and the reader is drained: they swap places.
      reader, writer := writer, reader;
      readerVersion, writerVersion := writerVersion, readerVersion;
      ofPrimary := !ofPrimary;
    }
  }
}
