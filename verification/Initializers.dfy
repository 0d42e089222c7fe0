/** Initialisation handlers that wait for components (`src/behavior.rs`, `InitializerBehaviorList`). */
module Initializers {
  import opened Iters
  import opened Sorting

  type TypeId = int

  datatype Handler<B> = Handler(delegate: B, deps: set<TypeId>)

  /** What a handler adds to its entity, whatever else is there. */
  type Effect<!B> = B -> set<TypeId>

  // === What an execution amounts to === //

  /** The components present after the given handlers ran, one after the other. */
  function After<B>(handlers: seq<Handler<B>>, effect: Effect<B>, start: set<TypeId>, runs: seq<int>): set<TypeId>
    requires forall i :: 0 <= i < |runs| ==> 0 <= runs[i] < |handlers|
  {
    if runs == [] then start
    else After(handlers, effect, start, runs[..|runs| - 1]) + effect(handlers[runs[|runs| - 1]].delegate)
  }

  /** Nothing more can be added: whoever has its dependencies has had its effect. */
  ghost predicate Closed<B>(handlers: seq<Handler<B>>, effect: Effect<B>, present: set<TypeId>) {
    forall i :: 0 <= i < |handlers| && handlers[i].deps <= present ==> effect(handlers[i].delegate) <= present
  }

  /** The least set of components that has `start` and is closed. */
  ghost predicate IsLeast<B>(handlers: seq<Handler<B>>, effect: Effect<B>, start: set<TypeId>, present: set<TypeId>) {
    && start <= present && Closed(handlers, effect, present)
    && forall q {:trigger Closed(handlers, effect, q)} :: start <= q && Closed(handlers, effect, q) ==> present <= q
  }

  lemma LeastIsUnique<B>(handlers: seq<Handler<B>>, effect: Effect<B>, start: set<TypeId>, p: set<TypeId>,
                         q: set<TypeId>)
    requires IsLeast(handlers, effect, start, p) && IsLeast(handlers, effect, start, q)
    ensures p == q
  {
  }

  /** Each handler found its dependencies when it ran. */
  ghost predicate RanSoundly<B>(handlers: seq<Handler<B>>, effect: Effect<B>, start: set<TypeId>, runs: seq<int>) {
    && NoRepeats(runs) && (forall i :: 0 <= i < |runs| ==> 0 <= runs[i] < |handlers|)
    && forall p {:trigger HadDeps(handlers, effect, start, runs, p)} :: 0 <= p < |runs| ==>
         HadDeps(handlers, effect, start, runs, p)
  }

  ghost predicate HadDeps<B>(handlers: seq<Handler<B>>, effect: Effect<B>, start: set<TypeId>, runs: seq<int>, p: int)
    requires 0 <= p < |runs| && forall i :: 0 <= i < |runs| ==> 0 <= runs[i] < |handlers|
  {
    handlers[runs[p]].deps <= After(handlers, effect, start, runs[..p])
  }

  lemma RunOneMore<B>(handlers: seq<Handler<B>>, effect: Effect<B>, start: set<TypeId>, runs: seq<int>, h: int)
    requires RanSoundly(handlers, effect, start, runs) && 0 <= h < |handlers| && h !in runs
    requires handlers[h].deps <= After(handlers, effect, start, runs)
    ensures RanSoundly(handlers, effect, start, runs + [h])
    ensures After(handlers, effect, start, runs + [h])
      == After(handlers, effect, start, runs) + effect(handlers[h].delegate)
  {
    var all := runs + [h];
    assert all[..|runs|] == runs;
    forall p | 0 <= p < |all| ensures HadDeps(handlers, effect, start, all, p) {
      if p < |runs| { assert all[..p] == runs[..p] && HadDeps(handlers, effect, start, runs, p); }
    }
  }

  /** Whatever is there is in every closed set that has what was there at first. */
  lemma {:induction false} AfterIsNeeded<B>(handlers: seq<Handler<B>>, effect: Effect<B>, start: set<TypeId>,
                                            runs: seq<int>, q: set<TypeId>)
    requires RanSoundly(handlers, effect, start, runs) && start <= q && Closed(handlers, effect, q)
    ensures start <= After(handlers, effect, start, runs) <= q
    decreases |runs|
  {
    if runs != [] {
      var front := runs[..|runs| - 1];
      forall p | 0 <= p < |front| ensures HadDeps(handlers, effect, start, front, p) {
        assert front[..p] == runs[..p] && HadDeps(handlers, effect, start, runs, p);
      }
      AfterIsNeeded(handlers, effect, start, front, q);
      var h := runs[|runs| - 1];
      assert HadDeps(handlers, effect, start, runs, |runs| - 1);
    }
  }

  lemma {:induction false} EffectsAreThere<B>(handlers: seq<Handler<B>>, effect: Effect<B>, start: set<TypeId>,
                                              runs: seq<int>, h: int)
    requires (forall i :: 0 <= i < |runs| ==> 0 <= runs[i] < |handlers|) && h in runs
    ensures 0 <= h < |handlers| && effect(handlers[h].delegate) <= After(handlers, effect, start, runs)
    decreases |runs|
  {
    var front := runs[..|runs| - 1];
    if h != runs[|runs| - 1] {
      assert runs == front + [runs[|runs| - 1]];
      EffectsAreThere(handlers, effect, start, front, h);
    }
  }

  // === In which order handlers run === //

  /** Handler `g` may run before handler `h`: those without dependencies come first, and handlers with the same
      dependencies run in the order of their registration. */
  ghost predicate Comes<B>(handlers: seq<Handler<B>>, g: int, h: int)
    requires 0 <= g < |handlers| && 0 <= h < |handlers|
  {
    (handlers[h].deps == {} ==> handlers[g].deps == {}) && (handlers[g].deps == handlers[h].deps ==> g < h)
  }

  ghost predicate Orderly<B>(handlers: seq<Handler<B>>, runs: seq<int>) {
    && (forall p :: 0 <= p < |runs| ==> 0 <= runs[p] < |handlers|)
    && (forall p, q {:trigger Comes(handlers, runs[p], runs[q])} ::
          0 <= p < q < |runs| ==> Comes(handlers, runs[p], runs[q]))
  }

  /** It is the turn of `h`, as far as the handlers are concerned that ran. */
  ghost predicate InTurn<B>(handlers: seq<Handler<B>>, runs: seq<int>, h: int)
    requires 0 <= h < |handlers|
  {
    forall g {:trigger g in runs} :: g in runs ==> 0 <= g < |handlers| && Comes(handlers, g, h)
  }

  lemma OrderlyOneMore<B>(handlers: seq<Handler<B>>, runs: seq<int>, h: int)
    requires Orderly(handlers, runs) && 0 <= h < |handlers| && InTurn(handlers, runs, h)
    ensures Orderly(handlers, runs + [h])
  {
    var all := runs + [h];
    forall p, q | 0 <= p < q < |all| ensures Comes(handlers, all[p], all[q]) {
      if q == |runs| {
        assert all[p] in runs;
      } else {
        assert Comes(handlers, runs[p], runs[q]);
      }
    }
  }

  // === The list === //

  /** The handlers that wait for a type. */
  ghost predicate WaitersOk<B>(handlers: seq<Handler<B>>, waiters: map<TypeId, seq<int>>, t: TypeId)
    requires t in waiters
  {
    && Ascending(waiters[t]) && waiters[t] != []
    && forall i :: i in waiters[t] <==> 0 <= i < |handlers| && t in handlers[i].deps
  }

  ghost predicate WaitersTable<B>(handlers: seq<Handler<B>>, waiters: map<TypeId, seq<int>>) {
    && (forall t {:trigger WaitersOk(handlers, waiters, t)} :: t in waiters ==> WaitersOk(handlers, waiters, t))
    && (forall i, t {:trigger t in handlers[i].deps} :: 0 <= i < |handlers| && t in handlers[i].deps ==> t in waiters)
  }

  ghost predicate EagerOk<B>(handlers: seq<Handler<B>>, eager: seq<int>) {
    Ascending(eager) && forall i :: i in eager <==> 0 <= i < |handlers| && handlers[i].deps == {}
  }

  ghost predicate TableOk<B>(handlers: seq<Handler<B>>, waiters: map<TypeId, seq<int>>, eager: seq<int>) {
    WaitersTable(handlers, waiters) && EagerOk(handlers, eager)
  }

  // === Executing it === //

  /** The state of an execution: `open` has the types not yet found. */
  ghost predicate Pending<B>(handlers: seq<Handler<B>>, counts: seq<int>, open: set<TypeId>, runs: seq<int>) {
    && |counts| == |handlers|
    && (forall i :: 0 <= i < |handlers| ==> counts[i] == |handlers[i].deps * open|)
    && forall i :: i in runs <==> 0 <= i < |handlers| && counts[i] == 0
  }

  ghost predicate Executing<B>(handlers: seq<Handler<B>>, waiters: map<TypeId, seq<int>>, effect: Effect<B>,
                               start: set<TypeId>, counts: seq<int>, open: set<TypeId>, runs: seq<int>,
                               present: set<TypeId>)
  {
    && open <= waiters.Keys && Pending(handlers, counts, open, runs)
    && RanSoundly(handlers, effect, start, runs) && present == After(handlers, effect, start, runs)
    && Orderly(handlers, runs)
    && forall t :: t in waiters && t !in open ==> t in present
  }

  lemma EagerComes<B>(handlers: seq<Handler<B>>, eager: seq<int>, i: int)
    requires EagerOk(handlers, eager) && 0 <= i < |eager|
    ensures 0 <= eager[i] < |handlers|
    ensures InTurn(handlers, eager[..i], eager[i])
  {
    assert eager[i] in eager;
    forall g | g in eager[..i] ensures 0 <= g < |handlers| && Comes(handlers, g, eager[i]) {
      var j :| 0 <= j < i && eager[j] == g;
      assert g in eager;
    }
  }

  /** Runs the handlers without dependencies. */
  method RunEager<B>(handlers: seq<Handler<B>>, waiters: map<TypeId, seq<int>>, eager: seq<int>, effect: Effect<B>,
                     start: set<TypeId>)
    returns (runs: seq<int>, present: set<TypeId>)
    requires TableOk(handlers, waiters, eager)
    ensures runs == eager && RanSoundly(handlers, effect, start, runs) && Orderly(handlers, runs)
    ensures present == After(handlers, effect, start, runs)
  {
    runs, present := [], start;
    var i := 0;
    while i < |eager|
      invariant 0 <= i <= |eager| && runs == eager[..i] && Orderly(handlers, runs)
      invariant RanSoundly(handlers, effect, start, runs) && present == After(handlers, effect, start, runs)
    {
      var h := eager[i];
      assert h in eager;
      assert eager[..i + 1] == eager[..i] + [h];
      RunOneMore(handlers, effect, start, runs, h);
      EagerComes(handlers, eager, i);
      OrderlyOneMore(handlers, runs, h);
      present := present + effect(handlers[h].delegate);
      runs := runs + [h];
      i := i + 1;
    }
  }

  /** Calls a handler that waits for nothing any more. */
  method RunIfReady<B>(handlers: seq<Handler<B>>, effect: Effect<B>, ghost start: set<TypeId>, h: int, count: int,
                       runs: seq<int>, present: set<TypeId>)
    returns (runs': seq<int>, present': set<TypeId>)
    requires RanSoundly(handlers, effect, start, runs) && present == After(handlers, effect, start, runs)
    requires 0 <= h < |handlers|
    requires count == 0 ==> h !in runs && handlers[h].deps <= present
    requires Orderly(handlers, runs) && (count == 0 ==> InTurn(handlers, runs, h))
    ensures RanSoundly(handlers, effect, start, runs') && present' == After(handlers, effect, start, runs')
    ensures Orderly(handlers, runs')
    ensures runs' == (if count == 0 then runs + [h] else runs) && present <= present'
  {
    runs', present' := runs, present;
    if count == 0 {
      RunOneMore(handlers, effect, start, runs, h);
      OrderlyOneMore(handlers, runs, h);
      present' := present + effect(handlers[h].delegate);
      runs' := runs + [h];
    }
  }

  /** The waiters in `list` wait for one type less. */
  ghost predicate CountedDown(before: seq<int>, after: seq<int>, list: seq<int>) {
    |after| == |before| && forall i :: 0 <= i < |before| ==> after[i] == if i in list then before[i] - 1 else before[i]
  }

  ghost predicate RanIfZero(counts: seq<int>, runs: seq<int>) {
    forall i :: i in runs <==> 0 <= i < |counts| && counts[i] == 0
  }

  /** The first `m` waiters of a type that was found have been released. */
  ghost predicate Releasing<B>(handlers: seq<Handler<B>>, effect: Effect<B>, start: set<TypeId>, list: seq<int>, m: int,
                               counts: seq<int>, present: set<TypeId>, counts': seq<int>, runs': seq<int>,
                               present': set<TypeId>) {
    && 0 <= m <= |list| && present <= present'
    && RanSoundly(handlers, effect, start, runs') && present' == After(handlers, effect, start, runs')
    && CountedDown(counts, counts', list[..m]) && RanIfZero(counts', runs') && Orderly(handlers, runs')
  }

  /** Once the last type a handler waits for is found, those with the same dependencies that ran were released
      before it. */
  lemma ReleasedInTurn<B>(handlers: seq<Handler<B>>, waiters: map<TypeId, seq<int>>, effect: Effect<B>,
                          start: set<TypeId>, t: TypeId, m: int, counts: seq<int>, open: set<TypeId>, runs: seq<int>,
                          present: set<TypeId>, now: seq<int>, ran: seq<int>, there: set<TypeId>)
    requires t in waiters && WaitersOk(handlers, waiters, t) && 0 <= m < |waiters[t]| && |counts| == |handlers|
    requires Pending(handlers, counts, open, runs)
    requires Releasing(handlers, effect, start, waiters[t], m, counts, present, now, ran, there)
    ensures 0 <= waiters[t][m] < |handlers|
    ensures now[waiters[t][m]] == 1 ==> InTurn(handlers, ran, waiters[t][m])
  {
    var list, h := waiters[t], waiters[t][m];
    assert h in list && h !in list[..m];
    if now[h] == 1 {
      forall g | g in ran ensures 0 <= g < |handlers| && Comes(handlers, g, h) {
        assert now[g] == 0 && counts[h] == 1;
        if handlers[g].deps == handlers[h].deps {
          assert counts[g] == 1 && g in list[..m];
          var j :| 0 <= j < m && list[j] == g;
        }
      }
    }
  }

  lemma CountedOneMore(counts: seq<int>, now: seq<int>, list: seq<int>, m: int, ran: seq<int>)
    requires 0 <= m < |list| && list[m] !in list[..m] && 0 <= list[m] < |counts| && counts[list[m]] > 0
    requires CountedDown(counts, now, list[..m]) && RanIfZero(now, ran)
    ensures |now| == |counts| && now[list[m]] == counts[list[m]] && list[m] !in ran
    ensures var after := now[list[m] := now[list[m]] - 1];
      && CountedDown(counts, after, list[..m + 1])
      && RanIfZero(after, if after[list[m]] == 0 then ran + [list[m]] else ran)
  {
    assert list[..m + 1] == list[..m] + [list[m]];
  }

  /** A waiter that was not released yet. */
  lemma NextWaiter<B>(handlers: seq<Handler<B>>, waiters: map<TypeId, seq<int>>, eager: seq<int>, effect: Effect<B>,
                      start: set<TypeId>, t: TypeId, m: int, counts: seq<int>, open: set<TypeId>, runs: seq<int>,
                      present: set<TypeId>, there: set<TypeId>)
    requires TableOk(handlers, waiters, eager) && t in waiters && 0 <= m < |waiters[t]|
    requires Executing(handlers, waiters, effect, start, counts, open, runs, present) && t in open && t in present
    requires present <= there
    ensures var h := waiters[t][m];
      && h !in waiters[t][..m] && 0 <= h < |handlers| == |counts| && counts[h] > 0
      && (counts[h] == 1 ==> handlers[h].deps <= there)
  {
    var h := waiters[t][m];
    assert WaitersOk(handlers, waiters, t);
    assert h in waiters[t];
    ReleasedOne(handlers, waiters, counts, open, t, h, there);
  }

  /** The next waiter waits for one type less, and runs if nothing is left. */
  method ReleaseNext<B>(handlers: seq<Handler<B>>, ghost waiters: map<TypeId, seq<int>>, ghost eager: seq<int>,
                        effect: Effect<B>, ghost start: set<TypeId>, ghost t: TypeId, list: seq<int>, m: int,
                        ghost counts: seq<int>, ghost open: set<TypeId>, ghost runs: seq<int>,
                        ghost present: set<TypeId>, now: seq<int>, ran: seq<int>, there: set<TypeId>)
    returns (counts': seq<int>, runs': seq<int>, present': set<TypeId>)
    requires TableOk(handlers, waiters, eager) && t in waiters && list == waiters[t] && m < |list|
    requires Executing(handlers, waiters, effect, start, counts, open, runs, present) && t in open && t in present
    requires Releasing(handlers, effect, start, list, m, counts, present, now, ran, there)
    ensures Releasing(handlers, effect, start, list, m + 1, counts, present, counts', runs', present')
  {
    NextWaiter(handlers, waiters, eager, effect, start, t, m, counts, open, runs, present, there);
    CountedOneMore(counts, now, list, m, ran);
    assert WaitersOk(handlers, waiters, t);
    ReleasedInTurn(handlers, waiters, effect, start, t, m, counts, open, runs, present, now, ran, there);
    counts', runs', present' := ReleaseOne(handlers, effect, start, list[m], now, ran, there);
  }

  method ReleaseOne<B>(handlers: seq<Handler<B>>, effect: Effect<B>, ghost start: set<TypeId>, h: int,
                       now: seq<int>, ran: seq<int>, there: set<TypeId>)
    returns (counts': seq<int>, runs': seq<int>, present': set<TypeId>)
    requires RanSoundly(handlers, effect, start, ran) && there == After(handlers, effect, start, ran)
    requires 0 <= h < |handlers| == |now| && (now[h] == 1 ==> h !in ran && handlers[h].deps <= there)
    requires Orderly(handlers, ran) && (now[h] == 1 ==> InTurn(handlers, ran, h))
    ensures counts' == now[h := now[h] - 1] && there <= present'
    ensures runs' == if counts'[h] == 0 then ran + [h] else ran
    ensures RanSoundly(handlers, effect, start, runs') && present' == After(handlers, effect, start, runs')
    ensures Orderly(handlers, runs')
  {
    counts' := now[h := now[h] - 1];
    runs', present' := RunIfReady(handlers, effect, start, h, counts'[h], ran, there);
  }

  method ReleaseAll<B>(handlers: seq<Handler<B>>, ghost waiters: map<TypeId, seq<int>>, ghost eager: seq<int>,
                       effect: Effect<B>, ghost start: set<TypeId>, ghost t: TypeId, list: seq<int>,
                       counts: seq<int>, ghost open: set<TypeId>, runs: seq<int>, present: set<TypeId>)
    returns (counts': seq<int>, runs': seq<int>, present': set<TypeId>)
    requires TableOk(handlers, waiters, eager) && t in waiters && list == waiters[t]
    requires Executing(handlers, waiters, effect, start, counts, open, runs, present) && t in open && t in present
    requires Releasing(handlers, effect, start, list, 0, counts, present, counts, runs, present)
    ensures Releasing(handlers, effect, start, list, |list|, counts, present, counts', runs', present')
  {
    counts', runs', present' := counts, runs, present;
    for m := 0 to |list|
      invariant Releasing(handlers, effect, start, list, m, counts, present, counts', runs', present')
    {
      counts', runs', present' := ReleaseNext(handlers, waiters, eager, effect, start, t, list, m, counts, open, runs,
                                              present, counts', runs', present');
    }
  }

  /** One type was found: all its waiters wait for one type less, and those with nothing left run. */
  method Found<B>(handlers: seq<Handler<B>>, waiters: map<TypeId, seq<int>>, ghost eager: seq<int>, effect: Effect<B>,
                  ghost start: set<TypeId>, t: TypeId, counts: seq<int>, ghost open: set<TypeId>, runs: seq<int>,
                  present: set<TypeId>)
    returns (counts': seq<int>, runs': seq<int>, present': set<TypeId>)
    requires TableOk(handlers, waiters, eager)
    requires Executing(handlers, waiters, effect, start, counts, open, runs, present) && t in open && t in present
    ensures Executing(handlers, waiters, effect, start, counts', open - {t}, runs', present') && present <= present'
  {
    var list := waiters[t];
    assert WaitersOk(handlers, waiters, t);
    counts', runs', present' := ReleaseAll(handlers, waiters, eager, effect, start, t, list, counts, open, runs,
                                           present);
    assert list[..|list|] == list;
    FoundKeepsPending(handlers, waiters, counts, counts', open, t, runs');
  }

  lemma ReleasedOne<B>(handlers: seq<Handler<B>>, waiters: map<TypeId, seq<int>>, counts: seq<int>, open: set<TypeId>,
                       t: TypeId, h: int, present: set<TypeId>)
    requires t in waiters && WaitersOk(handlers, waiters, t) && h in waiters[t] && t in open && t in present
    requires forall i, d {:trigger d in handlers[i].deps} :: 0 <= i < |handlers| && d in handlers[i].deps ==>
      d in waiters
    requires |counts| == |handlers| && counts[h] == |handlers[h].deps * open|
    requires forall d :: d in waiters && d !in open ==> d in present
    ensures counts[h] > 0 && (counts[h] == 1 ==> handlers[h].deps <= present)
  {
    WaitsForOneLess(handlers[h].deps, open, t);
    if counts[h] == 1 { ReadyHasAll(handlers[h].deps, open, t, present); }
  }

  lemma FoundKeepsPending<B>(handlers: seq<Handler<B>>, waiters: map<TypeId, seq<int>>, counts: seq<int>,
                             counts': seq<int>, open: set<TypeId>, t: TypeId, runs: seq<int>)
    requires t in waiters && WaitersOk(handlers, waiters, t) && t in open && |counts| == |handlers|
    requires forall i :: 0 <= i < |handlers| ==> counts[i] == |handlers[i].deps * open|
    requires CountedDown(counts, counts', waiters[t]) && RanIfZero(counts', runs)
    ensures Pending(handlers, counts', open - {t}, runs)
  {
    forall i | 0 <= i < |handlers| ensures counts'[i] == |handlers[i].deps * (open - {t})| {
      if t in handlers[i].deps {
        WaitsForOneLess(handlers[i].deps, open, t);
      } else {
        assert handlers[i].deps * (open - {t}) == handlers[i].deps * open;
      }
    }
  }

  lemma ReadyHasAll(deps: set<TypeId>, open: set<TypeId>, t: TypeId, present: set<TypeId>)
    requires (forall d :: d in deps && d !in open ==> d in present) && t in present && t in deps && t in open
      && |deps * open| == 1
    ensures deps <= present
  {
    WaitsForOneLess(deps, open, t);
    forall d | d in deps ensures d in present { assert d in open ==> d in deps * open; }
  }

  lemma WaitsForOneLess(deps: set<TypeId>, open: set<TypeId>, t: TypeId)
    requires t in open && t in deps
    ensures |deps * (open - {t})| == |deps * open| - 1 && |deps * open| > 0
    ensures |deps * open| == 1 ==> deps * open == {t}
  {
    var waiting := deps * open;
    assert deps * (open - {t}) == waiting - {t};
    if |waiting| == 1 {
      assert |waiting - {t}| == 0;
      assert waiting - {t} == {};
    }
  }

  /** The state of an execution within a pass. */
  ghost predicate Passing<B>(handlers: seq<Handler<B>>, waiters: map<TypeId, seq<int>>, effect: Effect<B>,
                             start: set<TypeId>, remaining: seq<TypeId>, i: int, kept: seq<TypeId>, before: set<TypeId>,
                             counts: seq<int>, runs: seq<int>, present: set<TypeId>) {
    && InPass(remaining, i, kept, before, present)
    && Executing(handlers, waiters, effect, start, counts, Missing(remaining, i, kept), runs, present)
  }

  /** The next type of a pass is kept if it is missing. */
  method TryOne<B>(handlers: seq<Handler<B>>, waiters: map<TypeId, seq<int>>, ghost eager: seq<int>, effect: Effect<B>,
                   ghost start: set<TypeId>, remaining: seq<TypeId>, i: int, kept: seq<TypeId>, counts: seq<int>,
                   runs: seq<int>, ghost before: set<TypeId>, present: set<TypeId>)
    returns (kept': seq<TypeId>, counts': seq<int>, runs': seq<int>, present': set<TypeId>)
    requires TableOk(handlers, waiters, eager)
    requires Passing(handlers, waiters, effect, start, remaining, i, kept, before, counts, runs, present)
    requires i < |remaining|
    ensures Passing(handlers, waiters, effect, start, remaining, i + 1, kept', before, counts', runs', present')
  {
    var t := remaining[i];
    kept', counts', runs', present' := kept, counts, runs, present;
    NextOfPass(remaining, i, kept);
    if t in present {
      counts', runs', present' :=
        Found(handlers, waiters, eager, effect, start, t, counts, Missing(remaining, i, kept), runs, present);
    } else {
      kept' := kept + [t];
    }
  }

  /** The rest of a pass. */
  method PassOn<B>(handlers: seq<Handler<B>>, waiters: map<TypeId, seq<int>>, ghost eager: seq<int>, effect: Effect<B>,
                   ghost start: set<TypeId>, remaining: seq<TypeId>, kept: seq<TypeId>, ghost before: set<TypeId>,
                   counts: seq<int>, runs: seq<int>, present: set<TypeId>)
    returns (remaining': seq<TypeId>, counts': seq<int>, runs': seq<int>, present': set<TypeId>)
    requires TableOk(handlers, waiters, eager)
    requires Passing(handlers, waiters, effect, start, remaining, 0, kept, before, counts, runs, present)
    ensures Passing(handlers, waiters, effect, start, remaining, |remaining|, remaining', before, counts', runs',
      present')
  {
    remaining', counts', runs', present' := kept, counts, runs, present;
    for i := 0 to |remaining|
      invariant Passing(handlers, waiters, effect, start, remaining, i, remaining', before, counts', runs', present')
    {
      remaining', counts', runs', present' :=
        TryOne(handlers, waiters, eager, effect, start, remaining, i, remaining', counts', runs', before, present');
    }
  }

  /** One pass over the types not yet found; handlers that run may make later ones of the pass found. A pass
      that finds nothing changes nothing. */
  method Pass<B>(handlers: seq<Handler<B>>, waiters: map<TypeId, seq<int>>, ghost eager: seq<int>, effect: Effect<B>,
                 ghost start: set<TypeId>, remaining: seq<TypeId>, counts: seq<int>, runs: seq<int>,
                 present: set<TypeId>)
    returns (remaining': seq<TypeId>, counts': seq<int>, runs': seq<int>, present': set<TypeId>)
    requires TableOk(handlers, waiters, eager)
    requires Executing(handlers, waiters, effect, start, counts, Elems(remaining), runs, present)
    requires NoRepeats(remaining)
    ensures Executing(handlers, waiters, effect, start, counts', Elems(remaining'), runs', present')
    ensures NoRepeats(remaining')
    ensures |remaining'| <= |remaining|
    ensures |remaining'| == |remaining| ==>
      remaining' == remaining && present' == present && NoneThere(remaining, present)
  {
    PassStart(remaining, present);
    remaining', counts', runs', present' :=
      PassOn(handlers, waiters, eager, effect, start, remaining, [], present, counts, runs, present);
    PassEnd(remaining, remaining', present, present');
  }

  lemma PassStart(remaining: seq<TypeId>, present: set<TypeId>)
    requires NoRepeats(remaining)
    ensures InPass(remaining, 0, [], present, present) && Missing(remaining, 0, []) == Elems(remaining)
  {
    assert remaining[0..] == remaining && Elems<TypeId>([]) == {};
  }

  lemma PassEnd(remaining: seq<TypeId>, kept: seq<TypeId>, before: set<TypeId>, present: set<TypeId>)
    requires InPass(remaining, |remaining|, kept, before, present)
    ensures Missing(remaining, |remaining|, kept) == Elems(kept)
    ensures |kept| == |remaining| ==> kept == remaining && present == before && NoneThere(remaining, before)
  {
    assert remaining[|remaining|..] == [] && Elems<TypeId>([]) == {};
    assert remaining[..|remaining|] == remaining;
  }

  /** The types not found so far: those kept, and those the pass has yet to look at. */
  ghost function Missing(remaining: seq<TypeId>, i: int, kept: seq<TypeId>): set<TypeId>
    requires 0 <= i <= |remaining|
  {
    Elems(kept) + Elems(remaining[i..])
  }

  ghost predicate NoneThere(types: seq<TypeId>, present: set<TypeId>) {
    forall t :: t in types ==> t !in present
  }

  /** The types kept so far by a pass, which change nothing as long as all were. */
  ghost predicate InPass(remaining: seq<TypeId>, i: int, kept: seq<TypeId>, before: set<TypeId>, present: set<TypeId>) {
    && NoRepeats(remaining) && 0 <= i <= |remaining| && |kept| <= i && NoRepeats(kept)
    && (forall x :: x in kept ==> x !in remaining[i..])
    && (|kept| == i ==> kept == remaining[..i] && present == before && NoneThere(kept, present))
  }

  lemma NextOfPass(remaining: seq<TypeId>, i: int, kept: seq<TypeId>)
    requires NoRepeats(remaining) && 0 <= i < |remaining| && NoRepeats(kept)
    requires forall x :: x in kept ==> x !in remaining[i..]
    ensures var t, open := remaining[i], Missing(remaining, i, kept);
      && t in open && Missing(remaining, i + 1, kept) == open - {t} && Missing(remaining, i + 1, kept + [t]) == open
      && NoRepeats(kept + [t]) && (forall x :: x in kept + [t] ==> x !in remaining[i + 1..])
      && remaining[..i + 1] == remaining[..i] + [t]
  {
    var t := remaining[i];
    ElemsSnoc(kept, t);
    assert remaining[i..] == [t] + remaining[i + 1..];
    ElemsCons(t, remaining[i + 1..]);
    assert t in remaining[i..] && t !in remaining[i + 1..];
    forall x | x in kept + [t] ensures x !in remaining[i + 1..] { assert x == t || x in kept; }
  }

  /** `execute`. It panics if a pass finds nothing while types are still missing. */
  method Execute<B>(handlers: seq<Handler<B>>, waiters: map<TypeId, seq<int>>, eager: seq<int>, effect: Effect<B>,
                    start: set<TypeId>)
    returns (panicked: bool, runs: seq<int>, present: set<TypeId>)
    requires TableOk(handlers, waiters, eager)
    ensures RanSoundly(handlers, effect, start, runs) && present == After(handlers, effect, start, runs)
    ensures IsLeast(handlers, effect, start, present) && Orderly(handlers, runs)
    ensures forall i :: i in runs <==> 0 <= i < |handlers| && handlers[i].deps <= present
    ensures !panicked ==> forall i :: i in runs <==> 0 <= i < |handlers|
    ensures panicked <==> exists t :: t in waiters && t !in present
  {
    runs, present := RunEager(handlers, waiters, eager, effect, start);
    var remaining := InAnyOrder(waiters.Keys);
    var counts := seq(|handlers|, i requires 0 <= i < |handlers| => |handlers[i].deps|);
    InitiallyPending(handlers, waiters, eager, counts);
    remaining, counts, runs, present :=
      RunPasses(handlers, waiters, eager, effect, start, remaining, counts, runs, present);
    panicked := remaining != [];
    StuckIsLeast(handlers, waiters, eager, effect, start, counts, Elems(remaining), runs, present);
    StuckHaveRun(handlers, waiters, eager, effect, start, counts, Elems(remaining), runs, present);
    MissingIff(waiters, remaining, present);
    if !panicked {
      AllRan(handlers, counts, runs);
    }
  }

  /** What the last pass left over is what is missing. */
  lemma MissingIff(waiters: map<TypeId, seq<int>>, remaining: seq<TypeId>, present: set<TypeId>)
    requires Elems(remaining) <= waiters.Keys && NoneThere(remaining, present)
    requires forall t :: t in waiters && t !in Elems(remaining) ==> t in present
    ensures remaining != [] <==> exists t :: t in waiters && t !in present
  {
    if remaining != [] {
      var t := remaining[0];
      assert t in remaining && t in Elems(remaining);
      assert t in waiters && t !in present;
    } else {
      assert Elems(remaining) == {};
    }
  }

  /** The loop of `execute`: passes until no type is missing or one pass finds nothing. */
  method RunPasses<B>(handlers: seq<Handler<B>>, waiters: map<TypeId, seq<int>>, ghost eager: seq<int>,
                      effect: Effect<B>, ghost start: set<TypeId>, remaining: seq<TypeId>, counts: seq<int>,
                      runs: seq<int>, present: set<TypeId>)
    returns (remaining': seq<TypeId>, counts': seq<int>, runs': seq<int>, present': set<TypeId>)
    requires TableOk(handlers, waiters, eager)
    requires Executing(handlers, waiters, effect, start, counts, Elems(remaining), runs, present)
    requires NoRepeats(remaining)
    ensures Executing(handlers, waiters, effect, start, counts', Elems(remaining'), runs', present')
    ensures NoneThere(remaining', present')
  {
    remaining', counts', runs', present' := remaining, counts, runs, present;
    while remaining' != []
      invariant Executing(handlers, waiters, effect, start, counts', Elems(remaining'), runs', present')
      invariant NoRepeats(remaining')
      decreases |remaining'|
    {
      var oldLen := |remaining'|;
      remaining', counts', runs', present' :=
        Pass(handlers, waiters, eager, effect, start, remaining', counts', runs', present');
      if |remaining'| == oldLen {
        return;
      }
    }
  }

  /** Once nothing is missing, every handler ran. */
  lemma AllRan<B>(handlers: seq<Handler<B>>, counts: seq<int>, runs: seq<int>)
    requires Pending(handlers, counts, {}, runs)
    ensures forall i :: i in runs <==> 0 <= i < |handlers|
  {
    forall i | 0 <= i < |handlers| ensures counts[i] == 0 { assert handlers[i].deps * {} == {}; }
  }

  lemma InitiallyPending<B>(handlers: seq<Handler<B>>, waiters: map<TypeId, seq<int>>, eager: seq<int>,
                            counts: seq<int>)
    requires TableOk(handlers, waiters, eager) && |counts| == |handlers|
    requires forall i :: 0 <= i < |handlers| ==> counts[i] == |handlers[i].deps|
    ensures Pending(handlers, counts, waiters.Keys, eager)
  {
    forall i | 0 <= i < |handlers|
      ensures counts[i] == |handlers[i].deps * waiters.Keys| && (i in eager <==> counts[i] == 0)
    {
      assert forall t :: t in handlers[i].deps ==> t in waiters;
      assert handlers[i].deps * waiters.Keys == handlers[i].deps;
    }
  }

  /** If none of the missing types is there, whatever has its dependencies ran, and nothing more is to be had. */
  lemma StuckIsLeast<B>(handlers: seq<Handler<B>>, waiters: map<TypeId, seq<int>>, eager: seq<int>, effect: Effect<B>,
                        start: set<TypeId>, counts: seq<int>, open: set<TypeId>, runs: seq<int>, present: set<TypeId>)
    requires TableOk(handlers, waiters, eager)
    requires Executing(handlers, waiters, effect, start, counts, open, runs, present)
    requires forall d :: d in open ==> d !in present
    ensures IsLeast(handlers, effect, start, present)
  {
    forall i | 0 <= i < |handlers| && handlers[i].deps <= present ensures effect(handlers[i].delegate) <= present {
      forall d ensures d !in handlers[i].deps * open { assert d in handlers[i].deps ==> d in present; }
      EffectsAreThere(handlers, effect, start, runs, i);
    }
    forall q | start <= q && Closed(handlers, effect, q) ensures present <= q {
      AfterIsNeeded(handlers, effect, start, runs, q);
    }
    StartIsKept(handlers, effect, start, runs);
  }

  /** Then exactly those ran that have their dependencies. */
  lemma StuckHaveRun<B>(handlers: seq<Handler<B>>, waiters: map<TypeId, seq<int>>, eager: seq<int>, effect: Effect<B>,
                        start: set<TypeId>, counts: seq<int>, open: set<TypeId>, runs: seq<int>, present: set<TypeId>)
    requires TableOk(handlers, waiters, eager)
    requires Executing(handlers, waiters, effect, start, counts, open, runs, present)
    requires forall d :: d in open ==> d !in present
    ensures forall i :: i in runs <==> 0 <= i < |handlers| && handlers[i].deps <= present
  {
    forall i | 0 <= i < |handlers| ensures counts[i] == 0 <==> handlers[i].deps <= present {
      forall d | d in handlers[i].deps && d !in open ensures d in present { assert d in waiters; }
      DepsAreThere(handlers[i].deps, open, present);
    }
  }

  lemma DepsAreThere(deps: set<TypeId>, open: set<TypeId>, present: set<TypeId>)
    requires (forall d :: d in deps && d !in open ==> d in present) && forall d :: d in open ==> d !in present
    ensures |deps * open| == 0 <==> deps <= present
  {
    if d :| d in deps && d !in present {
      assert d in deps * open;
    } else {
      forall d ensures d !in deps * open { assert d in deps ==> d in present; }
      assert deps * open == {};
      forall d | d in deps ensures d in present {}
    }
  }

  lemma {:induction false} StartIsKept<B>(handlers: seq<Handler<B>>, effect: Effect<B>, start: set<TypeId>,
                                          runs: seq<int>)
    requires forall i :: 0 <= i < |runs| ==> 0 <= runs[i] < |handlers|
    ensures start <= After(handlers, effect, start, runs)
    decreases |runs|
  {
    if runs != [] { StartIsKept(handlers, effect, start, runs[..|runs| - 1]); }
  }

  // === Building it === //

  /** The handlers listed for a type, none if nobody waits for it. */
  function WaitersFor(waiters: map<TypeId, seq<int>>, t: TypeId): seq<int> {
    if t in waiters then waiters[t] else []
  }

  lemma WithWaiterKeepsTable<B>(handlers: seq<Handler<B>>, delegate: B, deps: set<TypeId>,
                                waiters: map<TypeId, seq<int>>, t: TypeId)
    requires WaitersTable(handlers + [Handler(delegate, deps)], waiters) && t !in deps
    ensures WaitersTable(handlers + [Handler(delegate, deps + {t})],
                         waiters[t := WaitersFor(waiters, t) + [|handlers|]])
  {
    var n := |handlers|;
    var before, after := handlers + [Handler(delegate, deps)], handlers + [Handler(delegate, deps + {t})];
    var waiters' := waiters[t := WaitersFor(waiters, t) + [n]];
    forall u | u in waiters' ensures WaitersOk(after, waiters', u) {
      if u in waiters { assert WaitersOk(before, waiters, u); }
      assert before[n].deps == deps && after[n].deps == deps + {t};
      forall i ensures i in WaitersFor(waiters, u) <==> 0 <= i < |before| && u in before[i].deps {
        if u !in waiters && 0 <= i < |before| { assert u !in before[i].deps; }
      }
      if u == t { JoinedIs(WaitersFor(waiters, t), [n], n); }
      forall i ensures i in waiters'[u] <==> 0 <= i < |after| && u in after[i].deps {
        if 0 <= i < n { assert after[i] == before[i]; }
      }
    }
    forall i, u | 0 <= i < |after| && u in after[i].deps ensures u in waiters' {
      assert u != t ==> u in before[i].deps;
    }
  }

  function Shifted(s: seq<int>, n: int): seq<int> {
    seq(|s|, i requires 0 <= i < |s| => s[i] + n)
  }

  lemma ShiftedIs(s: seq<int>, n: int)
    ensures forall i :: i in Shifted(s, n) <==> i - n in s
    ensures Ascending(s) ==> Ascending(Shifted(s, n))
  {
    forall i ensures i in Shifted(s, n) <==> i - n in s {
      if i - n in s {
        var k :| 0 <= k < |s| && s[k] == i - n;
        assert Shifted(s, n)[k] == i;
      }
    }
  }

  /** Two lists of disjoint ranges, one after the other. */
  lemma JoinedIs(a: seq<int>, b: seq<int>, n: int)
    requires Ascending(a) && Ascending(b) && (forall i :: i in a ==> i < n) && forall i :: i in b ==> i >= n
    ensures Ascending(a + b) && forall i :: i in a + b <==> i in a || i in b
  {
    forall i, j | 0 <= i < j < |a + b| ensures (a + b)[i] < (a + b)[j] {
      if i < |a| && j >= |a| { assert a[i] in a && b[j - |a|] in b; }
    }
  }

  lemma WaitersForAre<B>(handlers: seq<Handler<B>>, waiters: map<TypeId, seq<int>>, t: TypeId)
    requires WaitersTable(handlers, waiters)
    ensures IsWaiters(handlers, WaitersFor(waiters, t), t)
    ensures t in waiters ==> WaitersFor(waiters, t) != []
  {
    if t in waiters {
      assert WaitersOk(handlers, waiters, t);
    } else {
      forall i | 0 <= i < |handlers| ensures t !in handlers[i].deps {}
    }
  }

  ghost predicate IsWaiters<B>(handlers: seq<Handler<B>>, list: seq<int>, t: TypeId) {
    Ascending(list) && forall i :: i in list <==> 0 <= i < |handlers| && t in handlers[i].deps
  }

  lemma MergedList<B>(handlers: seq<Handler<B>>, others: seq<Handler<B>>, mine: seq<int>, theirs: seq<int>, t: TypeId)
    requires IsWaiters(handlers, mine, t) && IsWaiters(others, theirs, t)
    ensures IsWaiters(handlers + others, mine + Shifted(theirs, |handlers|), t)
  {
    var n, all := |handlers|, handlers + others;
    ShiftedIs(theirs, n);
    JoinedIs(mine, Shifted(theirs, n), n);
    forall i ensures i in mine + Shifted(theirs, n) <==> 0 <= i < |all| && t in all[i].deps {
      if 0 <= i < n { assert all[i] == handlers[i]; }
      if n <= i < |all| { assert all[i] == others[i - n]; }
    }
  }

  lemma MergedWaiters<B>(handlers: seq<Handler<B>>, waiters: map<TypeId, seq<int>>, others: seq<Handler<B>>,
                         theirs: map<TypeId, seq<int>>, merged: map<TypeId, seq<int>>)
    requires WaitersTable(handlers, waiters) && WaitersTable(others, theirs)
    requires merged.Keys == waiters.Keys + theirs.Keys
    requires forall t {:trigger merged[t]} :: t in merged ==>
      merged[t] == WaitersFor(waiters, t) + Shifted(WaitersFor(theirs, t), |handlers|)
    ensures WaitersTable(handlers + others, merged)
  {
    var n, all := |handlers|, handlers + others;
    forall t | t in merged ensures WaitersOk(all, merged, t) {
      WaitersForAre(handlers, waiters, t);
      WaitersForAre(others, theirs, t);
      MergedList(handlers, others, WaitersFor(waiters, t), WaitersFor(theirs, t), t);
    }
    forall i, t | 0 <= i < |all| && t in all[i].deps ensures t in merged {
      if i < n { assert t in handlers[i].deps; } else { assert t in others[i - n].deps; }
    }
  }

  lemma MergedEager<B>(handlers: seq<Handler<B>>, eager: seq<int>, others: seq<Handler<B>>, theirs: seq<int>)
    requires EagerOk(handlers, eager) && EagerOk(others, theirs)
    ensures EagerOk(handlers + others, eager + Shifted(theirs, |handlers|))
  {
    ShiftedIs(theirs, |handlers|);
    JoinedIs(eager, Shifted(theirs, |handlers|), |handlers|);
  }

  class InitializerBehaviorList<B> {
    var handlers: seq<Handler<B>>
    var waiters: map<TypeId, seq<int>>
    var eager: seq<int>

    ghost predicate Valid()
      reads this
    {
      TableOk(handlers, waiters, eager)
    }

    constructor ()
      ensures Valid() && handlers == []
    {
      handlers, waiters, eager := [], map[], [];
    }

    /** `push_cx`. */
    method Push(delegate: B, deps: set<TypeId>)
      requires Valid()
      modifies this
      ensures Valid() && handlers == old(handlers) + [Handler(delegate, deps)]
    {
      var n := |handlers|;
      EmptyHandlerKeepsTable(handlers, waiters, delegate);
      var rest := deps;
      assert deps - rest == {};
      while rest != {}
        invariant rest <= deps && handlers == old(handlers) && eager == old(eager)
        invariant WaitersTable(handlers + [Handler(delegate, deps - rest)], waiters)
        decreases rest
      {
        var t := AnyOf(rest);
        WithWaiterKeepsTable(handlers, delegate, deps - rest, waiters, t);
        assert deps - (rest - {t}) == deps - rest + {t};
        waiters := waiters[t := WaitersFor(waiters, t) + [n]];
        rest := rest - {t};
      }
      assert deps - rest == deps;
      if deps == {} {
        eager := eager + [n];
      }
      handlers := handlers + [Handler(delegate, deps)];
      PushedEager(old(handlers), old(eager), delegate, deps);
    }

    /** `extend_ref`: the other list's handlers come after ours, so its indices are shifted. */
    method ExtendRef(other: InitializerBehaviorList<B>)
      requires Valid() && other.Valid() && other != this
      modifies this
      ensures Valid() && handlers == old(handlers) + other.handlers
    {
      var n, theirs := |handlers|, other.waiters;
      ghost var mine := waiters;
      var rest := theirs.Keys;
      while rest != {}
        invariant rest <= theirs.Keys && handlers == old(handlers) && eager == old(eager)
        invariant waiters.Keys == mine.Keys + (theirs.Keys - rest)
        invariant forall t {:trigger waiters[t]} :: t in waiters ==>
          waiters[t] == if t in theirs && t !in rest then WaitersFor(mine, t) + Shifted(theirs[t], n)
            else WaitersFor(mine, t)
        decreases rest
      {
        var t := AnyOf(rest);
        waiters := waiters[t := WaitersFor(waiters, t) + Shifted(theirs[t], n)];
        rest := rest - {t};
      }
      assert forall t :: Shifted(WaitersFor(theirs, t), n) == if t in theirs then Shifted(theirs[t], n) else [];
      MergedWaiters(handlers, mine, other.handlers, theirs, waiters);
      MergedEager(handlers, eager, other.handlers, other.eager);
      eager := eager + Shifted(other.eager, n);
      handlers := handlers + other.handlers;
    }

    /** `execute`, for handlers that each add a fixed set of components. On success every handler ran exactly
        once, after all its dependencies were there; success and the final components are those of the least
        fixed point, whatever the order of the hash map. */
    method Run(effect: Effect<B>, start: set<TypeId>) returns (panicked: bool, runs: seq<int>, present: set<TypeId>)
      requires Valid()
      ensures RanSoundly(handlers, effect, start, runs) && present == After(handlers, effect, start, runs)
      ensures IsLeast(handlers, effect, start, present) && Orderly(handlers, runs)
      ensures forall i :: i in runs <==> 0 <= i < |handlers| && handlers[i].deps <= present
      ensures !panicked ==> forall i :: i in runs <==> 0 <= i < |handlers|
      ensures panicked <==> Lacks(handlers, present)
    {
      panicked, runs, present := Execute(handlers, waiters, eager, effect, start);
      forall t | t in waiters ensures exists i :: 0 <= i < |handlers| && t in handlers[i].deps {
        assert WaitersOk(handlers, waiters, t) && waiters[t][0] in waiters[t];
        var i := waiters[t][0];
        assert t in handlers[i].deps;
      }
    }
  }

  lemma EmptyHandlerKeepsTable<B>(handlers: seq<Handler<B>>, waiters: map<TypeId, seq<int>>, delegate: B)
    requires WaitersTable(handlers, waiters)
    ensures WaitersTable(handlers + [Handler(delegate, {})], waiters)
  {
    var all := handlers + [Handler(delegate, {})];
    forall t | t in waiters ensures WaitersOk(all, waiters, t) {
      assert WaitersOk(handlers, waiters, t);
      forall i ensures i in waiters[t] <==> 0 <= i < |all| && t in all[i].deps {
        if 0 <= i < |handlers| { assert all[i] == handlers[i]; }
      }
    }
    forall i, t | 0 <= i < |all| && t in all[i].deps ensures t in waiters { assert t in handlers[i].deps; }
  }

  lemma PushedEager<B>(handlers: seq<Handler<B>>, eager: seq<int>, delegate: B, deps: set<TypeId>)
    requires EagerOk(handlers, eager)
    ensures EagerOk(handlers + [Handler(delegate, deps)], if deps == {} then eager + [|handlers|] else eager)
  {
    if deps == {} { JoinedIs(eager, [|handlers|], |handlers|); }
  }

  ghost predicate Adds<B>(handlers: seq<Handler<B>>, effect: Effect<B>, h: int, t: TypeId) {
    0 <= h < |handlers| && t in effect(handlers[h].delegate)
  }

  lemma {:induction false} AfterIs<B>(handlers: seq<Handler<B>>, effect: Effect<B>, start: set<TypeId>, runs: seq<int>,
                                      t: TypeId)
    requires forall i :: 0 <= i < |runs| ==> 0 <= runs[i] < |handlers|
    ensures t in After(handlers, effect, start, runs) <==>
      t in start || exists h :: h in runs && Adds(handlers, effect, h, t)
    decreases |runs|
  {
    if runs != [] {
      var before, last := runs[..|runs| - 1], runs[|runs| - 1];
      AfterIs(handlers, effect, start, before, t);
      assert runs == before + [last];
      assert t in effect(handlers[last].delegate) <==> Adds(handlers, effect, last, t);
    }
  }

  /** `PartialEntity::add` asserts that the component is not there yet: here, when the `p`th handler adds it. */
  ghost predicate AddsAfresh<B>(handlers: seq<Handler<B>>, effect: Effect<B>, start: set<TypeId>, runs: seq<int>,
                                p: int)
    requires 0 <= p < |runs| && forall i :: 0 <= i < |runs| ==> 0 <= runs[i] < |handlers|
  {
    forall t :: Adds(handlers, effect, runs[p], t) ==> t !in After(handlers, effect, start, runs[..p])
  }

  /** No two of these handlers add the same component, and none adds one that was there at first. */
  ghost predicate NoOverlap<B>(handlers: seq<Handler<B>>, effect: Effect<B>, start: set<TypeId>, ran: set<int>) {
    && (forall h, t :: h in ran && Adds(handlers, effect, h, t) ==> t !in start)
    && (forall h, g, t :: h in ran && g in ran && h != g && Adds(handlers, effect, h, t) ==>
         !Adds(handlers, effect, g, t))
  }

  /** That assertion holds throughout a run exactly if there is no overlap, whatever the order was. */
  lemma AddsAfreshIff<B>(handlers: seq<Handler<B>>, effect: Effect<B>, start: set<TypeId>, runs: seq<int>)
    requires RanSoundly(handlers, effect, start, runs)
    ensures (forall p :: 0 <= p < |runs| ==> AddsAfresh(handlers, effect, start, runs, p))
       <==> NoOverlap(handlers, effect, start, Elems(runs))
  {
    if NoOverlap(handlers, effect, start, Elems(runs)) {
      forall p, t | 0 <= p < |runs| && Adds(handlers, effect, runs[p], t)
        ensures t !in After(handlers, effect, start, runs[..p])
      {
        AfterIs(handlers, effect, start, runs[..p], t);
        assert runs[p] in Elems(runs) && forall h :: h in runs[..p] ==> h in Elems(runs) && h != runs[p];
      }
    }
    if forall p :: 0 <= p < |runs| ==> AddsAfresh(handlers, effect, start, runs, p) {
      forall h, t | h in Elems(runs) && Adds(handlers, effect, h, t) ensures t !in start {
        var p :| 0 <= p < |runs| && runs[p] == h;
        AfreshFrom(handlers, effect, start, runs, p, p, t);
      }
      forall h, g, t | h in Elems(runs) && g in Elems(runs) && h != g && Adds(handlers, effect, h, t)
        ensures !Adds(handlers, effect, g, t)
      {
        var p, q :| 0 <= p < |runs| && runs[p] == h && 0 <= q < |runs| && runs[q] == g;
        if q < p {
          AfreshFrom(handlers, effect, start, runs, p, q, t);
        } else if Adds(handlers, effect, g, t) {
          AfreshFrom(handlers, effect, start, runs, q, p, t);
        }
      }
    }
  }

  lemma AfreshFrom<B>(handlers: seq<Handler<B>>, effect: Effect<B>, start: set<TypeId>, runs: seq<int>, p: int, q: int,
                      t: TypeId)
    requires 0 <= q <= p < |runs| && forall i :: 0 <= i < |runs| ==> 0 <= runs[i] < |handlers|
    requires AddsAfresh(handlers, effect, start, runs, p) && Adds(handlers, effect, runs[p], t)
    ensures t !in start && (q < p ==> !Adds(handlers, effect, runs[q], t))
  {
    AfterIs(handlers, effect, start, runs[..p], t);
    if q < p { assert runs[..p][q] == runs[q]; }
  }

  lemma ClosedAlike<B>(handlers: seq<Handler<B>>, others: seq<Handler<B>>, effect: Effect<B>, present: set<TypeId>)
    requires (forall h :: h in others ==> h in handlers) && Closed(handlers, effect, present)
    ensures Closed(others, effect, present)
  {
    forall i | 0 <= i < |others| && others[i].deps <= present ensures effect(others[i].delegate) <= present {
      assert others[i] in handlers;
    }
  }

  ghost predicate Lacks<B>(handlers: seq<Handler<B>>, present: set<TypeId>) {
    exists i, t :: 0 <= i < |handlers| && t in handlers[i].deps && t !in present
  }

  lemma LacksAlike<B>(handlers: seq<Handler<B>>, others: seq<Handler<B>>, present: set<TypeId>)
    requires (forall h :: h in others ==> h in handlers) && Lacks(others, present)
    ensures Lacks(handlers, present)
  {
    var i, t :| 0 <= i < |others| && t in others[i].deps && t !in present;
    assert others[i] in handlers;
    var j :| 0 <= j < |handlers| && handlers[j] == others[i];
  }

  /** Two lists of the same handlers, pushed or merged in whatever order, end with the same components and agree
      on whether they panic. */
  lemma OrderDoesNotMatter<B>(handlers: seq<Handler<B>>, others: seq<Handler<B>>, effect: Effect<B>, start: set<TypeId>,
                              p: set<TypeId>, q: set<TypeId>)
    requires forall h :: h in handlers <==> h in others
    requires IsLeast(handlers, effect, start, p) && IsLeast(others, effect, start, q)
    ensures p == q && (Lacks(handlers, p) <==> Lacks(others, q))
  {
    ClosedAlike(handlers, others, effect, p);
    ClosedAlike(others, handlers, effect, q);
    if Lacks(handlers, p) { LacksAlike(others, handlers, p); }
    if Lacks(others, q) { LacksAlike(handlers, others, q); }
  }
}
