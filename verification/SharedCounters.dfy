/** What adding limits does, when some of them may share a counter: a narrower window prunes what a wider one wants. */
module SharedCounters {
  import opened Text
  import opened Sorting
  import opened RateLimits

  lemma {:induction false} KeptAppendAll(times: seq<int>, more: seq<int>, cutoff: int)
    ensures |Kept(times + more, cutoff)| == |Kept(times, cutoff)| + |Kept(more, cutoff)|
  {
    if more == [] {
      assert times + more == times;
    } else {
      var front, t := more[..|more| - 1], more[|more| - 1];
      assert times + more == times + front + [t] && more == front + [t];
      hide Kept;
      KeptAppendAll(times, front, cutoff);
      KeptAppend(times + front, t, cutoff);
      KeptAppend(front, t, cutoff);
    }
  }

  lemma {:induction false} TimesAppend(a: seq<Hit>, b: seq<Hit>)
    ensures Times(a + b) == Times(a) + Times(b)
  {
    if b == [] {
      assert a + b == a;
    } else {
      assert a + b == a + b[..|b| - 1] + [b[|b| - 1]] && b == b[..|b| - 1] + [b[|b| - 1]];
      TimesAppend(a, b[..|b| - 1]);
      TimesStep(a + b[..|b| - 1], b[|b| - 1]);
    }
  }

  /** With limits left out, a request makes no more counts on a counter. */
  lemma {:induction false} HitsOnWithin(some: seq<Limit>, ls: seq<Limit>, r: Request, key: string, cutoff: int)
    requires Within(some, ls)
    ensures |Kept(Times(HitsOn(some, r, key)), cutoff)| <= |Kept(Times(HitsOn(ls, r, key)), cutoff)|
    decreases |ls|
  {
    if some != [] {
      var front, rest := some[..|some| - 1], ls[..|ls| - 1];
      OneMoreKept(ls, r, key, cutoff);
      OneMoreKept(some, r, key, cutoff);
      hide CounterKey, Kept, HitsOn, Times;
      if Within(some, rest) { HitsOnWithin(some, rest, r, key, cutoff); } else { HitsOnWithin(front, rest, r, key, cutoff); }
    }
  }

  lemma OneMoreKept(ls: seq<Limit>, r: Request, key: string, cutoff: int)
    requires ls != []
    ensures var front, last := ls[..|ls| - 1], ls[|ls| - 1];
            |Kept(Times(HitsOn(ls, r, key)), cutoff)|
            == |Kept(Times(HitsOn(front, r, key)), cutoff)| + if CounterKey(last, r) == key && r.at > cutoff then 1 else 0
  {
    var front, last := ls[..|ls| - 1], ls[|ls| - 1];
    hide CounterKey, Kept;
    if CounterKey(last, r) == key {
      TimesStep(HitsOn(front, r, key), Hit(r.at, last.unit.Ms()));
      KeptAppend(Times(HitsOn(front, r, key)), r.at, cutoff);
    }
  }

  lemma ApplicableWithin(limits: seq<Limit>, more: seq<Limit>, r: Request)
    requires Within(limits, more)
    ensures Within(ApplicableLimits(limits, r), ApplicableLimits(more, r))
  {
    hide StableSort, Filter, Within;
    FilterWithin(limits, more, AppliesTo(r));
    SortWithin(Filter(limits, AppliesTo(r)), Filter(more, AppliesTo(r)), NotAfter);
  }

  /** Nor does a run. */
  lemma {:induction false} AllHitsWithin(limits: seq<Limit>, more: seq<Limit>, requests: seq<Request>, key: string, cutoff: int)
    requires Within(limits, more)
    ensures |Kept(Times(AllHits(limits, requests, key)), cutoff)| <= |Kept(Times(AllHits(more, requests, key)), cutoff)|
  {
    if requests != [] {
      var front, r := requests[..|requests| - 1], requests[|requests| - 1];
      hide Kept, ApplicableLimits, HitsOn, CounterKey, Within, Times;
      AllHitsWithin(limits, more, front, key, cutoff);
      ApplicableWithin(limits, more, r);
      HitsOnWithin(ApplicableLimits(limits, r), ApplicableLimits(more, r), r, key, cutoff);
      BothKept(AllHits(limits, front, key), HitsOn(ApplicableLimits(limits, r), r, key), cutoff);
      BothKept(AllHits(more, front, key), HitsOn(ApplicableLimits(more, r), r, key), cutoff);
    }
  }

  lemma BothKept(a: seq<Hit>, b: seq<Hit>, cutoff: int)
    ensures |Kept(Times(a + b), cutoff)| == |Kept(Times(a), cutoff)| + |Kept(Times(b), cutoff)|
  {
    TimesAppend(a, b);
    hide Times, Kept;
    KeptAppendAll(Times(a), Times(b), cutoff);
  }

  lemma ForgottenMore(a: seq<Hit>, b: seq<Hit>, cutoff: int)
    requires Forgotten(a, cutoff)
    ensures Forgotten(a + b, cutoff)
  {
    var i, j :| 0 <= i < j < |a| && cutoff < a[i].at <= a[j].at - a[j].windowMs;
    assert (a + b)[i] == a[i] && (a + b)[j] == a[j];
  }

  lemma {:induction false} HitsOnPrefix(ls: seq<Limit>, r: Request, key: string, i: nat)
    requires i <= |ls|
    ensures exists rest :: HitsOn(ls, r, key) == HitsOn(ls[..i], r, key) + rest
  {
    hide CounterKey;
    if i == |ls| {
      assert ls[..i] == ls && HitsOn(ls, r, key) == HitsOn(ls, r, key) + [];
    } else {
      var front, last := ls[..|ls| - 1], ls[|ls| - 1];
      HitsOnPrefix(front, r, key, i);
      assert front[..i] == ls[..i];
      var rest :| HitsOn(front, r, key) == HitsOn(ls[..i], r, key) + rest;
      var h := [Hit(r.at, last.unit.Ms())];
      assert HitsOn(ls[..i], r, key) + rest + h == HitsOn(ls[..i], r, key) + (rest + h);
    }
  }

  /** The counts made on the i-th limit's counter by the time it is its turn. */
  function SeenHits(more: seq<Limit>, requests: seq<Request>, ls: seq<Limit>, r: Request, i: nat): seq<Hit>
    requires i < |ls|
  {
    AllHits(more, requests, CounterKey(ls[i], r)) + HitsOn(ls[..i], r, CounterKey(ls[i], r))
  }

  lemma SeenIsPruned(more: seq<Limit>, requests: seq<Request>, ls: seq<Limit>, r: Request, i: nat)
    requires i < |ls|
    ensures Get(HitAll(RunHits(more, requests), ls[..i], r), CounterKey(ls[i], r)) == Pruned([], SeenHits(more, requests, ls, r, i))
  {
    hide Kept, ApplicableLimits, CounterKey, RunHits, Pruned, AllHits, HitsOn, HitAll, Get;
    var key := CounterKey(ls[i], r);
    StoreIsPruned(more, requests, key);
    HitAllPrunes(RunHits(more, requests), ls[..i], r, key);
    PrunedAppend([], AllHits(more, requests, key), HitsOn(ls[..i], r, key));
  }

  /** What a limit counts in any run is what the full history of its counter holds, exactly when nothing wanted was pruned. */
  lemma CountAtExactly(more: seq<Limit>, requests: seq<Request>, ls: seq<Limit>, r: Request, i: nat)
    requires i < |ls|
    ensures var cutoff := r.at - ls[i].unit.Ms();
            var seen := SeenHits(more, requests, ls, r, i); var count := CountAt(RunHits(more, requests), ls, r, i);
            if Forgotten(seen, cutoff) then count < |Kept(Times(seen), cutoff)| + 1 else count == |Kept(Times(seen), cutoff)| + 1
  {
    hide Kept, CounterKey, RunHits, Pruned, SeenHits, HitAll, Forgotten, Times, Get;
    SeenIsPruned(more, requests, ls, r, i);
    PrunedExactly(SeenHits(more, requests, ls, r, i), r.at - ls[i].unit.Ms());
  }

  /** Nothing a refusing limit still wants on its counter has been pruned by another limit that shares it. */
  ghost predicate NothingPruned(limits: seq<Limit>, more: seq<Limit>, requests: seq<Request>, r: Request) {
    forall l :: l in limits && l.action.Refuse? && Applies(l, r) ==>
      !Forgotten(AllHits(more, requests + [r], CounterKey(l, r)), r.at - l.unit.Ms())
  }

  /** A limit's turn comes in the larger configuration with no fewer counts made. */
  lemma SeenWithin(limits: seq<Limit>, more: seq<Limit>, requests: seq<Request>, some: seq<Limit>, ls: seq<Limit>, r: Request, i: nat, j: nat, cutoff: int)
    requires Within(limits, more) && i < |some| && j < |ls| && some[i] == ls[j] && Within(some[..i], ls[..j])
    ensures |Kept(Times(SeenHits(limits, requests, some, r, i)), cutoff)| <= |Kept(Times(SeenHits(more, requests, ls, r, j)), cutoff)|
  {
    hide Kept, CounterKey, AllHits, HitsOn, Times, Within;
    var key := CounterKey(ls[j], r);
    BothKept(AllHits(limits, requests, key), HitsOn(some[..i], r, key), cutoff);
    BothKept(AllHits(more, requests, key), HitsOn(ls[..j], r, key), cutoff);
    AllHitsWithin(limits, more, requests, key, cutoff);
    HitsOnWithin(some[..i], ls[..j], r, key, cutoff);
  }

  lemma SeenForgotten(before: seq<Hit>, ls: seq<Limit>, r: Request, key: string, i: nat, cutoff: int)
    requires i <= |ls| && Forgotten(before + HitsOn(ls[..i], r, key), cutoff)
    ensures Forgotten(before + HitsOn(ls, r, key), cutoff)
  {
    hide *;
    HitsOnPrefix(ls, r, key, i);
    var rest :| HitsOn(ls, r, key) == HitsOn(ls[..i], r, key) + rest;
    ForgottenMore(before + HitsOn(ls[..i], r, key), rest, cutoff);
    assert before + (HitsOn(ls[..i], r, key) + rest) == before + HitsOn(ls[..i], r, key) + rest;
  }

  lemma SeenKept(limits: seq<Limit>, more: seq<Limit>, requests: seq<Request>, r: Request, i: nat)
    requires i < |ApplicableLimits(more, r)| && NothingPruned(limits, more, requests, r)
    requires var l := ApplicableLimits(more, r)[i]; l in limits && l.action.Refuse?
    ensures var ls := ApplicableLimits(more, r); !Forgotten(SeenHits(more, requests, ls, r, i), r.at - ls[i].unit.Ms())
  {
    var ls := ApplicableLimits(more, r);
    assert ls[i] in ls;
    hide ApplicableLimits, CounterKey, AllHits, HitsOn, Forgotten, Applies;
    var key, cutoff := CounterKey(ls[i], r), r.at - ls[i].unit.Ms();
    AllHitsStep(more, requests, r, key);
    if Forgotten(SeenHits(more, requests, ls, r, i), cutoff) { SeenForgotten(AllHits(more, requests, key), ls, r, key, i, cutoff); }
  }

  lemma ApplicableIn(limits: seq<Limit>, r: Request, i: nat)
    requires i < |ApplicableLimits(limits, r)|
    ensures ApplicableLimits(limits, r)[i] in limits
  {
    assert ApplicableLimits(limits, r)[i] in ApplicableLimits(limits, r);
  }

  /** So it counts no less. */
  lemma CountsNoFewer(limits: seq<Limit>, more: seq<Limit>, requests: seq<Request>, r: Request, i: nat, j: nat)
    requires Within(limits, more) && NothingPruned(limits, more, requests, r)
    requires i < |ApplicableLimits(limits, r)| && j < |ApplicableLimits(more, r)|
    requires ApplicableLimits(limits, r)[i] == ApplicableLimits(more, r)[j] && ApplicableLimits(limits, r)[i].action.Refuse?
    requires Within(ApplicableLimits(limits, r)[..i], ApplicableLimits(more, r)[..j])
    ensures CountAt(RunHits(limits, requests), ApplicableLimits(limits, r), r, i)
            <= CountAt(RunHits(more, requests), ApplicableLimits(more, r), r, j)
  {
    hide *;
    var some, ls := ApplicableLimits(limits, r), ApplicableLimits(more, r);
    ApplicableIn(limits, r, i);
    SeenKept(limits, more, requests, r, j);
    CountAtExactly(limits, requests, some, r, i);
    CountAtExactly(more, requests, ls, r, j);
    SeenWithin(limits, more, requests, some, ls, r, i, j, r.at - ls[j].unit.Ms());
  }

  /**
   * Adding limits never turns a refusal into an allowance, at any point of any run, in any order of
   * arrival and however counters are shared, as long as nothing a refusing limit still wants has been
   * pruned by another that shares its counter.
   */
  lemma MoreLimitsNeverAllow(limits: seq<Limit>, more: seq<Limit>, requests: seq<Request>, r: Request)
    requires Within(limits, more) && NothingPruned(limits, more, requests, r)
    requires Permits(RunHits(more, requests), ApplicableLimits(more, r), r)
    ensures Permits(RunHits(limits, requests), ApplicableLimits(limits, r), r)
  {
    hide RunHits, CountAt, NothingPruned, Within, ApplicableLimits;
    var some, ls := ApplicableLimits(limits, r), ApplicableLimits(more, r);
    ApplicableWithin(limits, more, r);
    forall i | 0 <= i < |some| && some[i].action.Refuse? ensures !BreachedAt(RunHits(limits, requests), some, r, i) {
      var j := WithinAt(some, ls, i);
      CountsNoFewer(limits, more, requests, r, i, j);
      assert !BreachedAt(RunHits(more, requests), ls, r, j);
    }
  }

  /** No limit of the larger configuration shares a counter with a refusing limit of the smaller and has a narrower window. */
  ghost predicate NoneNarrower(limits: seq<Limit>, more: seq<Limit>) {
    forall l, m, r, s :: l in limits && l.action.Refuse? && m in more && Applies(l, r) && CountsOn(m, CounterKey(l, r), s) ==>
      l.unit.Ms() <= m.unit.Ms()
  }

  ghost predicate AtLeast(hits: seq<Hit>, windowMs: int, end: int) {
    forall i :: 0 <= i < |hits| ==> hits[i].windowMs >= windowMs && hits[i].at <= end
  }

  lemma {:induction false} HitsOnAtLeast(ls: seq<Limit>, r: Request, key: string, windowMs: int, end: int)
    requires r.at <= end && forall m :: m in ls && CounterKey(m, r) == key ==> m.unit.Ms() >= windowMs
    ensures AtLeast(HitsOn(ls, r, key), windowMs, end)
  {
    hide CounterKey;
    if ls != [] { HitsOnAtLeast(ls[..|ls| - 1], r, key, windowMs, end); }
  }

  lemma AtLeastBoth(a: seq<Hit>, b: seq<Hit>, windowMs: int, end: int)
    requires AtLeast(a, windowMs, end) && AtLeast(b, windowMs, end)
    ensures AtLeast(a + b, windowMs, end)
  {
  }

  ghost predicate WideOn(more: seq<Limit>, key: string, windowMs: int) {
    forall m, s :: m in more && CountsOn(m, key, s) ==> m.unit.Ms() >= windowMs
  }

  lemma ApplicableWide(more: seq<Limit>, r: Request, key: string, windowMs: int)
    requires WideOn(more, key, windowMs)
    ensures forall m :: m in ApplicableLimits(more, r) && CounterKey(m, r) == key ==> m.unit.Ms() >= windowMs
  {
    var ls := ApplicableLimits(more, r);
    assert forall m :: m in ls ==> m in more && Applies(m, r);
    hide ApplicableLimits, CounterKey, Applies;
    forall m | m in ls && CounterKey(m, r) == key ensures m.unit.Ms() >= windowMs { assert CountsOn(m, key, r); }
  }

  lemma {:induction false} AllHitsAtLeast(more: seq<Limit>, requests: seq<Request>, key: string, windowMs: int, end: int)
    requires WideOn(more, key, windowMs) && forall i :: 0 <= i < |requests| ==> requests[i].at <= end
    ensures AtLeast(AllHits(more, requests, key), windowMs, end)
  {
    hide ApplicableLimits, CounterKey, HitsOn, WideOn, AtLeast;
    if requests == [] {
      NoHits(windowMs, end);
    } else {
      var front, r := requests[..|requests| - 1], requests[|requests| - 1];
      assert forall i :: 0 <= i < |front| ==> front[i] == requests[i];
      AllHitsAtLeast(more, front, key, windowMs, end);
      ApplicableWide(more, r, key, windowMs);
      HitsOnAtLeast(ApplicableLimits(more, r), r, key, windowMs, end);
      AtLeastBoth(AllHits(more, front, key), HitsOn(ApplicableLimits(more, r), r, key), windowMs, end);
    }
  }

  lemma NoHits(windowMs: int, end: int)
    ensures AtLeast([], windowMs, end)
  {
  }

  lemma AtLeastKeeps(hits: seq<Hit>, windowMs: int, end: int)
    requires AtLeast(hits, windowMs, end)
    ensures !Forgotten(hits, end - windowMs)
  {
  }

  /** In time order nothing is, unless one that shares it has a narrower window. */
  lemma NoneNarrowerNothingPruned(limits: seq<Limit>, more: seq<Limit>, requests: seq<Request>, r: Request)
    requires InOrder(requests + [r]) && NoneNarrower(limits, more)
    ensures NothingPruned(limits, more, requests, r)
  {
    var all := requests + [r];
    assert forall i :: 0 <= i < |all| ==> all[i].at <= all[|all| - 1].at;
    hide CounterKey, AllHits, AtLeast, Forgotten, Applies;
    forall l | l in limits && l.action.Refuse? && Applies(l, r) ensures !Forgotten(AllHits(more, all, CounterKey(l, r)), r.at - l.unit.Ms()) {
      AllHitsAtLeast(more, all, CounterKey(l, r), l.unit.Ms(), r.at);
      AtLeastKeeps(AllHits(more, all, CounterKey(l, r)), l.unit.Ms(), r.at);
    }
  }

  /** So in time order adding limits never lets more through, while none is narrower than a refusing one it shares a counter with. */
  lemma WiderLimitsNeverAllow(limits: seq<Limit>, more: seq<Limit>, requests: seq<Request>, r: Request)
    requires Within(limits, more) && InOrder(requests + [r]) && NoneNarrower(limits, more)
    requires Permits(RunHits(more, requests), ApplicableLimits(more, r), r)
    ensures Permits(RunHits(limits, requests), ApplicableLimits(limits, r), r)
  {
    hide *;
    NoneNarrowerNothingPruned(limits, more, requests, r);
    MoreLimitsNeverAllow(limits, more, requests, r);
  }

  /** With separate counters the order of the limits does not matter either. */
  lemma ApartLimitsNeverAllow(limits: seq<Limit>, more: seq<Limit>, requests: seq<Request>, r: Request)
    requires KeysApart(limits) && KeysApart(more) && InOrder(requests + [r])
    requires forall l :: l in limits ==> l in more
    requires Permits(RunHits(more, requests), ApplicableLimits(more, r), r)
    ensures Permits(RunHits(limits, requests), ApplicableLimits(limits, r), r)
  {
    hide Permits, TrueCount, RunHits, ApplicableLimits;
    RateDecisionExact(limits, requests, r);
    RateDecisionExact(more, requests, r);
  }

  // Two calls a minute, and the same with a limit of five a second under its id, looked at first.

  function TwoAMinute(): Limit { Limit("shared", Global, None, None, None, 2, Minute, None, Sliding, Refuse, 1) }

  function FiveASecond(): Limit { Limit("shared", Global, None, None, None, 5, Second, None, Sliding, Refuse, 0) }

  function Alone(): seq<Limit> { [TwoAMinute()] }

  function Narrowed(): seq<Limit> { [FiveASecond(), TwoAMinute()] }

  lemma BothApply(at: int)
    ensures ApplicableLimits(Alone(), CallAt(at)) == Alone() && ApplicableLimits(Narrowed(), CallAt(at)) == Narrowed()
  {
    var s, m, r := FiveASecond(), TwoAMinute(), CallAt(at);
    FilterAppend([], s, AppliesTo(r));
    FilterAppend([], m, AppliesTo(r));
    FilterAppend([s], m, AppliesTo(r));
    assert [] + [s] == [s] && [] + [m] == [m] && [s] + [m] == [s, m];
    assert StableSort([s], NotAfter) == [s] by { assert [s][..0] == []; }
    assert StableSort([m], NotAfter) == [m] by { assert [m][..0] == []; }
    assert StableSort([s, m], NotAfter) == [s, m] by { assert [s, m][..1] == [s]; }
  }

  lemma OneKeyForBoth(at: int)
    ensures CounterKey(FiveASecond(), CallAt(at)) == "shared:global" == CounterKey(TwoAMinute(), CallAt(at))
  {
    assert "shared" + ":" + "global" == "shared:global";
  }

  lemma CallHits(at: int)
    ensures HitsOn(Alone(), CallAt(at), "shared:global") == [Hit(at, 60_000)]
    ensures HitsOn(Narrowed()[..1], CallAt(at), "shared:global") == [Hit(at, 1_000)]
    ensures HitsOn(Narrowed(), CallAt(at), "shared:global") == [Hit(at, 1_000), Hit(at, 60_000)]
  {
    OneKeyForBoth(at);
    var s, m, r := FiveASecond(), TwoAMinute(), CallAt(at);
    hide CounterKey;
    assert [s, m][..1] == [s] && [s][..0] == [] && [m][..0] == [];
    assert HitsOn([s], r, "shared:global") == [Hit(at, 1_000)];
  }

  lemma EarlierHits()
    ensures AllHits(Alone(), [CallAt(0), CallAt(100)], "shared:global") == [Hit(0, 60_000), Hit(100, 60_000)]
    ensures AllHits(Narrowed(), [CallAt(0), CallAt(100)], "shared:global")
            == [Hit(0, 1_000), Hit(0, 60_000), Hit(100, 1_000), Hit(100, 60_000)]
  {
    hide *;
    BothApply(0);
    BothApply(100);
    CallHits(0);
    CallHits(100);
    AllHitsStep(Alone(), [], CallAt(0), "shared:global");
    AllHitsStep(Alone(), [CallAt(0)], CallAt(100), "shared:global");
    AllHitsStep(Narrowed(), [], CallAt(0), "shared:global");
    AllHitsStep(Narrowed(), [CallAt(0)], CallAt(100), "shared:global");
    NoneYet(Alone());
    NoneYet(Narrowed());
    assert [] + [CallAt(0)] == [CallAt(0)] && [CallAt(0)] + [CallAt(100)] == [CallAt(0), CallAt(100)];
  }

  lemma NoneYet(limits: seq<Limit>)
    ensures AllHits(limits, [], "shared:global") == []
  {
  }

  lemma PrunedWhole(hits: seq<Hit>, h: Hit, times: seq<int>)
    requires Pruned([], hits) == times && forall i :: 0 <= i < |times| ==> times[i] > h.at - h.windowMs
    ensures Pruned([], hits + [h]) == times + [h.at]
  {
    hide Pruned, Kept;
    PrunedStep([], hits, h);
    KeptList(times, h.at - h.windowMs);
  }

  lemma {:induction false} KeptList(times: seq<int>, cutoff: int)
    requires forall i :: 0 <= i < |times| ==> times[i] > cutoff
    ensures Kept(times, cutoff) == times
  {
    if times != [] {
      KeptList(times[..|times| - 1], cutoff);
      KeptAppend(times[..|times| - 1], times[|times| - 1], cutoff);
    }
  }

  lemma PrunedAlone()
    ensures Pruned([], [Hit(0, 60_000), Hit(100, 60_000)]) == [0, 100]
  {
    hide *;
    PrunedNothing([]);
    PrunedWhole([], Hit(0, 60_000), []);
    assert [] + [Hit(0, 60_000)] == [Hit(0, 60_000)] && [] + [0] == [0];
    PrunedWhole([Hit(0, 60_000)], Hit(100, 60_000), [0]);
    assert [Hit(0, 60_000)] + [Hit(100, 60_000)] == [Hit(0, 60_000), Hit(100, 60_000)] && [0] + [100] == [0, 100];
  }

  lemma PrunedNarrowed()
    ensures Pruned([], [Hit(0, 1_000), Hit(0, 60_000), Hit(100, 1_000), Hit(100, 60_000)]) == [0, 0, 100, 100]
  {
    hide *;
    var a, b, c, d := Hit(0, 1_000), Hit(0, 60_000), Hit(100, 1_000), Hit(100, 60_000);
    PrunedNothing([]);
    PrunedWhole([], a, []);
    assert [] + [a] == [a] && [] + [0] == [0];
    PrunedWhole([a], b, [0]);
    assert [a] + [b] == [a, b] && [0] + [0] == [0, 0];
    PrunedWhole([a, b], c, [0, 0]);
    assert [a, b] + [c] == [a, b, c] && [0, 0] + [100] == [0, 0, 100];
    PrunedWhole([a, b, c], d, [0, 0, 100]);
    assert [a, b, c] + [d] == [a, b, c, d] && [0, 0, 100] + [100] == [0, 0, 100, 100];
  }

  lemma CountSeen(more: seq<Limit>, requests: seq<Request>, ls: seq<Limit>, r: Request, i: nat, seen: seq<Hit>)
    requires i < |ls| && SeenHits(more, requests, ls, r, i) == seen
    ensures CountAt(RunHits(more, requests), ls, r, i) == |Kept(Pruned([], seen), r.at - ls[i].unit.Ms())| + 1
  {
    hide Kept, CounterKey, RunHits, Pruned, SeenHits, HitAll, Get;
    SeenIsPruned(more, requests, ls, r, i);
  }

  function Earlier(): seq<Request> { [CallAt(0), CallAt(100)] }

  lemma SeenIs(more: seq<Limit>, requests: seq<Request>, ls: seq<Limit>, r: Request, i: nat, key: string)
    requires i < |ls| && CounterKey(ls[i], r) == key
    ensures SeenHits(more, requests, ls, r, i) == AllHits(more, requests, key) + HitsOn(ls[..i], r, key)
  {
    hide AllHits, HitsOn, CounterKey;
  }

  lemma ThirdIs()
    ensures Alone()[0] == TwoAMinute() && Narrowed()[0] == FiveASecond() && Narrowed()[1] == TwoAMinute()
    ensures |Alone()| == 1 && |Narrowed()| == 2 && Alone()[..0] == [] && Narrowed()[..0] == []
    ensures TwoAMinute().unit.Ms() == 60_000 && FiveASecond().unit.Ms() == 1_000 && CallAt(5_000).at == 5_000
    ensures TwoAMinute().Ceiling() == 2 && FiveASecond().Ceiling() == 5
  {
  }

  function SeenBefore(): seq<Hit> { [Hit(0, 1_000), Hit(0, 60_000), Hit(100, 1_000), Hit(100, 60_000)] }

  lemma SeenAtThird()
    ensures |Alone()| == 1 && |Narrowed()| == 2
    ensures SeenHits(Alone(), Earlier(), Alone(), CallAt(5_000), 0) == [Hit(0, 60_000), Hit(100, 60_000)]
    ensures SeenHits(Narrowed(), Earlier(), Narrowed(), CallAt(5_000), 0) == SeenBefore()
    ensures SeenHits(Narrowed(), Earlier(), Narrowed(), CallAt(5_000), 1) == SeenBefore() + [Hit(5_000, 1_000)]
  {
    assert Earlier() == [CallAt(0), CallAt(100)];
    EarlierHits();
    hide Earlier, CallAt, AllHits, HitsOn, CounterKey, Alone, Narrowed, TwoAMinute, FiveASecond, SeenHits;
    ThirdIs();
    OneKeyForBoth(5_000);
    CallHits(5_000);
    NoLimits(map[], CallAt(5_000), "shared:global");
    SeenIs(Alone(), Earlier(), Alone(), CallAt(5_000), 0, "shared:global");
    SeenIs(Narrowed(), Earlier(), Narrowed(), CallAt(5_000), 0, "shared:global");
    SeenIs(Narrowed(), Earlier(), Narrowed(), CallAt(5_000), 1, "shared:global");
  }

  lemma AloneAtThird()
    ensures |Alone()| == 1 && CountAt(RunHits(Alone(), Earlier()), Alone(), CallAt(5_000), 0) == 3
  {
    hide *;
    ThirdIs();
    SeenAtThird();
    CountSeen(Alone(), Earlier(), Alone(), CallAt(5_000), 0, [Hit(0, 60_000), Hit(100, 60_000)]);
    PrunedAlone();
    KeptList([0, 100], -55_000);
  }

  lemma BothPruned()
    ensures Pruned([], SeenBefore()) == [0, 0, 100, 100] && Kept([0, 0, 100, 100], 4_000) == []
    ensures Pruned([], SeenBefore() + [Hit(5_000, 1_000)]) == [5_000] && Kept([5_000], -55_000) == [5_000]
  {
    PrunedNarrowed();
    hide Pruned, Kept;
    KeptNone([0, 0, 100, 100], 4_000);
    PrunedStep([], SeenBefore(), Hit(5_000, 1_000));
    KeptList([5_000], -55_000);
    assert [] + [5_000] == [5_000];
  }

  /** The five-a-second limit has just pruned what the two-a-minute one still had to count. */
  lemma NarrowedAtThird()
    ensures |Narrowed()| == 2
    ensures CountAt(RunHits(Narrowed(), Earlier()), Narrowed(), CallAt(5_000), 0) == 1
    ensures CountAt(RunHits(Narrowed(), Earlier()), Narrowed(), CallAt(5_000), 1) == 2
  {
    hide *;
    ThirdIs();
    SeenAtThird();
    BothPruned();
    CountSeen(Narrowed(), Earlier(), Narrowed(), CallAt(5_000), 0, SeenBefore());
    CountSeen(Narrowed(), Earlier(), Narrowed(), CallAt(5_000), 1, SeenBefore() + [Hit(5_000, 1_000)]);
  }

  /** The third call is refused; with the narrower limit beside it under one id, it is allowed. */
  lemma NarrowerSharedAllows()
    ensures Within(Alone(), Narrowed()) && InOrder(Earlier() + [CallAt(5_000)])
    ensures !NoneNarrower(Alone(), Narrowed())
    ensures var r := CallAt(5_000);
            && !Permits(RunHits(Alone(), Earlier()), ApplicableLimits(Alone(), r), r)
            && Permits(RunHits(Narrowed(), Earlier()), ApplicableLimits(Narrowed(), r), r)
  {
    SharesNarrower();
    var r := CallAt(5_000);
    BothApply(5_000);
    hide ApplicableLimits, RunHits, CountAt, NoneNarrower;
    AloneAtThird();
    NarrowedAtThird();
    assert BreachedAt(RunHits(Alone(), Earlier()), Alone(), r, 0);
    assert !BreachedAt(RunHits(Narrowed(), Earlier()), Narrowed(), r, 0) && !BreachedAt(RunHits(Narrowed(), Earlier()), Narrowed(), r, 1);
  }

  lemma SharesNarrower()
    ensures !NoneNarrower(Alone(), Narrowed())
  {
    OneKeyForBoth(5_000);
    assert Alone()[0] in Alone() && Narrowed()[0] in Narrowed();
    hide CounterKey;
    assert CountsOn(FiveASecond(), CounterKey(TwoAMinute(), CallAt(5_000)), CallAt(5_000));
  }
}
