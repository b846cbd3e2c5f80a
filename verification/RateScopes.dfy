/** What each limit counts and decides, read off the fields of the limit and of the request. */
module RateScopes {
  import opened Text
  import opened Sorting
  import opened RateLimits

  /** The limit names nothing that these are not: an id it leaves out is any. */
  predicate About(l: Limit, apiId: string, operationId: string, consumerId: string, organizationId: Option<string>) {
    && l.apiId in {None, Some(apiId)}
    && l.operationId in {None, Some(operationId)}
    && (l.scope == PerConsumer ==> l.subjectId in {None, Some(consumerId)})
    && (l.scope == Tenant ==> l.subjectId in {None, organizationId})
  }

  /** The counter a limit keeps for these. */
  function CounterText(l: Limit, apiId: string, operationId: string, consumerId: string, organizationId: Option<string>): string {
    l.limitId + ":"
    + (if l.scope == Global then "global"
       else if l.scope == Api then apiId
       else if l.scope == Tenant then (if organizationId == None then "platform" else organizationId.value)
       else if l.scope == PerConsumer then consumerId
       else consumerId + ":" + operationId)
  }

  predicate Counts(l: Limit, r: Request, key: string) {
    About(l, r.apiId, r.operationId, r.consumerId, r.organizationId)
    && key == CounterText(l, r.apiId, r.operationId, r.consumerId, r.organizationId)
  }

  lemma CountsMeans(l: Limit, r: Request, key: string)
    ensures CountsOn(l, key, r) <==> Counts(l, r, key)
    ensures Applies(l, r) <==> About(l, r.apiId, r.operationId, r.consumerId, r.organizationId)
    ensures CounterKey(l, r) == CounterText(l, r.apiId, r.operationId, r.consumerId, r.organizationId)
  {
    assert (l.limitId + ":") + (r.consumerId + ":" + r.operationId) == l.limitId + ":" + r.consumerId + ":" + r.operationId;
  }

  // --- which counters a request moves -----------------------------------------

  lemma KeptKeeps(times: seq<int>, t: int, cutoff: int)
    requires t > cutoff
    ensures multiset(Kept(times, cutoff))[t] == multiset(times)[t]
  {
    if times != [] {
      var front, last := times[..|times| - 1], times[|times| - 1];
      KeptKeeps(front, t, cutoff);
      KeptAppend(front, last, cutoff);
      assert times == front + [last];
      hide Kept;
    }
  }

  lemma OneMoreCounted(times: seq<int>, at: int, cutoff: int)
    requires at > cutoff
    ensures multiset(Kept(times, cutoff) + [at])[at] == multiset(times)[at] + 1
  {
    KeptKeeps(times, at, cutoff);
    hide Kept;
  }

  /** Counts made now are never pruned by one another: each is one more in the list. */
  lemma {:induction false} PrunedCounts(start: seq<int>, hits: seq<Hit>, at: int)
    requires forall i :: 0 <= i < |hits| ==> hits[i].at == at && hits[i].windowMs > 0
    ensures multiset(Pruned(start, hits))[at] == multiset(start)[at] + |hits|
  {
    hide *;
    if hits == [] {
      PrunedNothing(start);
    } else {
      var front, h := hits[..|hits| - 1], hits[|hits| - 1];
      PrunedCounts(start, front, at);
      assert hits == front + [h];
      PrunedStep(start, front, h);
      OneMoreCounted(Pruned(start, front), at, h.at - h.windowMs);
    }
  }

  lemma {:induction false} HitsOnAre(ls: seq<Limit>, r: Request, key: string)
    ensures forall i :: 0 <= i < |HitsOn(ls, r, key)| ==> HitsOn(ls, r, key)[i].at == r.at && HitsOn(ls, r, key)[i].windowMs > 0
    ensures HitsOn(ls, r, key) != [] <==> exists l :: l in ls && CounterKey(l, r) == key
  {
    hide CounterKey;
    if ls != [] {
      var front, last := ls[..|ls| - 1], ls[|ls| - 1];
      HitsOnAre(front, r, key);
      assert ls == front + [last];
    }
  }

  /** A counter moves exactly when a configured limit that is about the request keeps it for the request. */
  lemma MovesExactly(limits: seq<Limit>, hits: Hits, r: Request, key: string)
    ensures Get(HitAll(hits, ApplicableLimits(limits, r), r), key) != Get(hits, key) <==> exists l :: l in limits && Counts(l, r, key)
  {
    var ls := ApplicableLimits(limits, r);
    forall l ensures l in ls && CounterKey(l, r) == key <==> l in limits && Counts(l, r, key) { CountsMeans(l, r, key); }
    hide ApplicableLimits, CounterKey, Counts, Pruned, HitAll, Get, HitsOn;
    HitAllPrunes(hits, ls, r, key);
    HitsOnAre(ls, r, key);
    PrunedCounts(Get(hits, key), HitsOn(ls, r, key), r.at);
    if HitsOn(ls, r, key) == [] { PrunedNothing(Get(hits, key)); }
  }

  // --- which requests a counter depends on ------------------------------------

  /** Two requests a limit is about share its counter exactly when they agree on what its scope is named for. */
  lemma SharesCounterExactly(l: Limit, r: Request, s: Request)
    requires ':' !in r.consumerId && ':' !in s.consumerId
    ensures CounterKey(l, r) == CounterKey(l, s) <==>
              match l.scope
              case PerConsumer => r.consumerId == s.consumerId
              case Tenant => r.organizationId == s.organizationId || {r.organizationId, s.organizationId} == {None, Some("platform")}
              case Endpoint => r.consumerId == s.consumerId && r.operationId == s.operationId
              case Api => r.apiId == s.apiId
              case Global => true
  {
    SameTail(l.limitId + ":", Subject(l, r), Subject(l, s));
    assert CounterKey(l, r) == (l.limitId + ":") + Subject(l, r) && CounterKey(l, s) == (l.limitId + ":") + Subject(l, s);
    if l.scope == Endpoint {
      SplitAtFirst(r.consumerId, r.operationId, ':');
      SplitAtFirst(s.consumerId, s.operationId, ':');
      var a, b := r.consumerId + ":" + r.operationId, s.consumerId + ":" + s.operationId;
      if a == b {
        assert r.consumerId == Split(a, ':')[0] && s.consumerId == Split(b, ':')[0];
        assert r.operationId == a[|r.consumerId| + 1..] == b[|s.consumerId| + 1..] == s.operationId;
      }
    }
  }

  lemma SameTail(head: string, a: string, b: string)
    ensures head + a == head + b <==> a == b
  {
    if head + a == head + b { assert a == (head + a)[|head|..] && b == (head + b)[|head|..]; }
  }

  lemma NotCounted(limits: seq<Limit>, l: Limit, r: Request, q: Request)
    requires KeysApart(limits) && l in limits && !Counts(l, q, CounterKey(l, r))
    ensures HitsOn(ApplicableLimits(limits, q), q, CounterKey(l, r)) == []
  {
    CountsMeans(l, q, CounterKey(l, r));
    hide Counts, ApplicableLimits, HitsOn;
    HitsOnCase(limits, q, l, r);
  }

  lemma {:induction false} DroppedHits(limits: seq<Limit>, l: Limit, r: Request, requests: seq<Request>, keep: Request -> bool)
    requires KeysApart(limits) && l in limits
    requires forall q :: q in requests && !keep(q) ==> !Counts(l, q, CounterKey(l, r))
    ensures AllHits(limits, requests, CounterKey(l, r)) == AllHits(limits, Filter(requests, keep), CounterKey(l, r))
  {
    hide KeysApart, Counts, ApplicableLimits, CounterKey, HitsOn;
    var key := CounterKey(l, r);
    if requests != [] {
      var front, q := requests[..|requests| - 1], requests[|requests| - 1];
      assert requests == front + [q];
      DroppedHits(limits, l, r, front, keep);
      FilterAppend(front, q, keep);
      if keep(q) {
        var kept := Filter(front, keep);
        assert (kept + [q])[..|kept|] == kept;
      } else {
        NotCounted(limits, l, r, q);
      }
    }
  }

  /** Whether this limit, on its own, finds its ceiling passed by the next request. */
  predicate Passed(limits: seq<Limit>, requests: seq<Request>, l: Limit, r: Request) {
    exists i :: 0 <= i < |ApplicableLimits(limits, r)| && ApplicableLimits(limits, r)[i] == l
                && BreachedAt(RunHits(limits, requests), ApplicableLimits(limits, r), r, i)
  }

  lemma PassedMeans(limits: seq<Limit>, requests: seq<Request>, l: Limit, r: Request)
    requires KeysApart(limits) && l in limits && Applies(l, r)
    ensures Passed(limits, requests, l, r)
            <==> HitCount(RunHits(limits, requests), CounterKey(l, r), r.at, l.unit.Ms()) > l.Ceiling()
  {
    var ls, hits := ApplicableLimits(limits, r), RunHits(limits, requests);
    assert l in ls;
    ApplicableApart(limits, r);
    hide ApplicableLimits, RunHits, CounterKey, HitCount, CountAt, KeysApart;
    forall i | 0 <= i < |ls| && ls[i] == l ensures BreachedAt(hits, ls, r, i) <==> HitCount(hits, CounterKey(l, r), r.at, l.unit.Ms()) > l.Ceiling() {
      CountAtAlone(hits, ls, r, i);
    }
  }

  /**
   * The requests a limit is not about, and those it keeps another counter for, can be dropped from any
   * run: its counter holds the same, and finds the next request within its ceiling or past it as before.
   */
  lemma OthersDropped(limits: seq<Limit>, l: Limit, r: Request, requests: seq<Request>, keep: Request -> bool)
    requires KeysApart(limits) && l in limits
    requires forall q :: q in requests && !keep(q) ==>
               || (l.apiId.Some? && l.apiId.value != q.apiId) || (l.operationId.Some? && l.operationId.value != q.operationId)
               || (l.scope == PerConsumer && (q.consumerId != r.consumerId || (l.subjectId.Some? && l.subjectId.value != q.consumerId)))
               || (l.scope == Tenant && l.subjectId.Some? && l.subjectId != q.organizationId)
               || (l.scope == Tenant && q.organizationId.Some? && r.organizationId.Some? && q.organizationId != r.organizationId)
               || (l.scope == Endpoint && q.consumerId + ":" + q.operationId != r.consumerId + ":" + r.operationId)
               || (l.scope == Api && q.apiId != r.apiId)
    ensures var key := CounterText(l, r.apiId, r.operationId, r.consumerId, r.organizationId);
            Get(RunHits(limits, requests), key) == Get(RunHits(limits, Filter(requests, keep)), key)
    ensures About(l, r.apiId, r.operationId, r.consumerId, r.organizationId) ==>
              (Passed(limits, requests, l, r) <==> Passed(limits, Filter(requests, keep), l, r))
  {
    var key := CounterKey(l, r);
    CountsMeans(l, r, key);
    forall q | q in requests && !keep(q) ensures !Counts(l, q, key) { SeparateCounters(l, r, q); }
    hide Counts, ApplicableLimits, RunHits, CounterKey, AllHits, KeysApart, About, CounterText, Pruned, Filter, Passed;
    DroppedHits(limits, l, r, requests, keep);
    StoreIsPruned(limits, requests, key);
    StoreIsPruned(limits, Filter(requests, keep), key);
    if Applies(l, r) {
      PassedMeans(limits, requests, l, r);
      PassedMeans(limits, Filter(requests, keep), l, r);
    }
  }

  lemma SeparateCounters(l: Limit, r: Request, q: Request)
    requires || (l.apiId.Some? && l.apiId.value != q.apiId) || (l.operationId.Some? && l.operationId.value != q.operationId)
             || (l.scope == PerConsumer && (q.consumerId != r.consumerId || (l.subjectId.Some? && l.subjectId.value != q.consumerId)))
             || (l.scope == Tenant && l.subjectId.Some? && l.subjectId != q.organizationId)
             || (l.scope == Tenant && q.organizationId.Some? && r.organizationId.Some? && q.organizationId != r.organizationId)
             || (l.scope == Endpoint && q.consumerId + ":" + q.operationId != r.consumerId + ":" + r.operationId)
             || (l.scope == Api && q.apiId != r.apiId)
    ensures !Counts(l, q, CounterKey(l, r))
  {
    CountsMeans(l, q, CounterKey(l, r));
    SameTail(l.limitId + ":", Subject(l, q), Subject(l, r));
    assert CounterKey(l, r) == (l.limitId + ":") + Subject(l, r) && CounterKey(l, q) == (l.limitId + ":") + Subject(l, q);
  }

  /** A request is let through exactly when no refusing limit about it finds its ceiling passed. */
  lemma PermitsMeans(limits: seq<Limit>, requests: seq<Request>, r: Request)
    requires KeysApart(limits)
    ensures Permits(RunHits(limits, requests), ApplicableLimits(limits, r), r) <==>
              forall l :: l in limits && About(l, r.apiId, r.operationId, r.consumerId, r.organizationId) && l.action == Refuse ==>
                !Passed(limits, requests, l, r)
  {
    var ls, hits := ApplicableLimits(limits, r), RunHits(limits, requests);
    forall l ensures l in ls <==> l in limits && About(l, r.apiId, r.operationId, r.consumerId, r.organizationId) { CountsMeans(l, r, CounterKey(l, r)); }
    ApplicableApart(limits, r);
    hide ApplicableLimits, RunHits, CounterKey, HitCount, CountAt, KeysApart, About;
    forall l, i | 0 <= i < |ls| && l == ls[i] ensures Passed(limits, requests, l, r) <==> BreachedAt(hits, ls, r, i) {
      assert l in ls;
      forall j | 0 <= j < |ls| && ls[j] == l ensures BreachedAt(hits, ls, r, j) <==> BreachedAt(hits, ls, r, i) {
        CountAtAlone(hits, ls, r, i);
        CountAtAlone(hits, ls, r, j);
      }
    }
    hide Passed;
    assert forall i :: 0 <= i < |ls| ==> ls[i] in ls;
  }

  function Arrivals(requests: seq<Request>): seq<int> {
    if requests == [] then [] else Arrivals(requests[..|requests| - 1]) + [requests[|requests| - 1].at]
  }

  /** A global limit that names nothing counts every request there is. */
  lemma {:induction false} GlobalCountsAll(limits: seq<Limit>, l: Limit, requests: seq<Request>)
    requires KeysApart(limits) && l in limits && l.scope == Global && l.apiId == None && l.operationId == None
    ensures Times(AllHits(limits, requests, l.limitId + ":global")) == Arrivals(requests)
  {
    hide *;
    if requests == [] {
      NothingArrived(limits, l.limitId + ":global");
    } else {
      var front, r := requests[..|requests| - 1], requests[|requests| - 1];
      assert requests == front + [r];
      GlobalCountsAll(limits, l, front);
      GlobalHits(limits, l, r);
      AllHitsStep(limits, front, r, l.limitId + ":global");
      TimesStep(AllHits(limits, front, l.limitId + ":global"), Hit(r.at, l.unit.Ms()));
      ArrivalsGrow(front, r);
    }
  }

  lemma NothingArrived(limits: seq<Limit>, key: string)
    ensures Times(AllHits(limits, [], key)) == [] == Arrivals([])
  {
  }

  lemma ArrivalsGrow(requests: seq<Request>, r: Request)
    ensures Arrivals(requests + [r]) == Arrivals(requests) + [r.at]
  {
    assert (requests + [r])[..|requests|] == requests;
  }

  lemma GlobalHits(limits: seq<Limit>, l: Limit, r: Request)
    requires KeysApart(limits) && l in limits && l.scope == Global && l.apiId == None && l.operationId == None
    ensures HitsOn(ApplicableLimits(limits, r), r, l.limitId + ":global") == [Hit(r.at, l.unit.Ms())]
  {
    HitsOnCase(limits, r, l, r);
    assert CounterKey(l, r) == l.limitId + ":" + "global" == l.limitId + ":global";
    hide ApplicableLimits, HitsOn, KeysApart, CounterKey;
  }

  // --- the order, the ceiling and the window ----------------------------------

  /** Endpoint limits are looked at first, then consumer, tenant, api and global ones; within a scope by priority. */
  lemma ScopesInOrder(limits: seq<Limit>, r: Request, i: nat, j: nat)
    requires i < j < |ApplicableLimits(limits, r)|
    ensures var l, m := ApplicableLimits(limits, r)[i], ApplicableLimits(limits, r)[j];
            || (l.scope == m.scope && l.priority <= m.priority)
            || exists a, b :: 0 <= a < b < 5 && [Endpoint, PerConsumer, Tenant, Api, Global][a] == l.scope
                 && [Endpoint, PerConsumer, Tenant, Api, Global][b] == m.scope
  {
    ApplicableOrdered(limits, r);
    var l, m := ApplicableLimits(limits, r)[i], ApplicableLimits(limits, r)[j];
    assert NotAfter(l, m);
    hide ApplicableLimits;
    var a, b := l.scope.Narrowness(), m.scope.Narrowness();
    assert [Endpoint, PerConsumer, Tenant, Api, Global][a] == l.scope && [Endpoint, PerConsumer, Tenant, Api, Global][b] == m.scope;
  }

  /**
   * So many calls at one instant, then one more: within the limit exactly when the burst, or without one
   * the limit itself, has room for it too, or a whole second, minute, hour or day has gone by.
   */
  lemma NextCallFits(l: Limit, at: int, calls: nat, later: int)
    requires later >= at
    ensures RetryFits(l, Copies(at, calls), later) <==>
              var most := if l.burst.Some? then l.burst.value else l.limit;
              var length := if l.unit == Second then 1_000 else if l.unit == Minute then 60 * 1_000
                            else if l.unit == Hour then 60 * 60 * 1_000 else 24 * 60 * 60 * 1_000;
              calls < most || (most > 0 && later - at >= length)
  {
    hide Kept;
    if later - at < l.unit.Ms() { KeptAll(Copies(at, calls), later - l.unit.Ms()); } else { KeptNone(Copies(at, calls), later - l.unit.Ms()); }
  }

  function Again(r: Request, n: nat): seq<Request> { if n == 0 then [] else Again(r, n - 1) + [r] }

  lemma {:induction false} AgainIs(r: Request, n: nat)
    ensures |Again(r, n)| == n && forall i :: 0 <= i < |Again(r, n)| ==> Again(r, n)[i] == r
  {
    if n > 0 { AgainIs(r, n - 1); }
  }

  lemma CopiesGrow(at: int, n: nat)
    ensures Copies(at, n + 1) == Copies(at, n) + [at]
  {
  }

  lemma {:induction false} AgainHistory(l: Limit, key: string, r: Request, n: nat)
    requires CountsOn(l, key, r)
    ensures History(l, key, Again(r, n)) == Copies(r.at, n)
  {
    hide CountsOn, Copies;
    if n == 0 {
      assert Copies(r.at, 0) == [];
    } else {
      AgainHistory(l, key, r, n - 1);
      CopiesGrow(r.at, n - 1);
      assert Again(r, n)[..|Again(r, n)| - 1] == Again(r, n - 1);
    }
  }

  /** The same of a whole run of checks under a refusing limit: so many requests, then the same one later. */
  lemma NextCallAllowed(l: Limit, r: Request, calls: nat, later: int)
    requires later >= r.at && l.action == Refuse && About(l, r.apiId, r.operationId, r.consumerId, r.organizationId)
    ensures Permits(RunHits([l], Again(r, calls)), ApplicableLimits([l], r.(at := later)), r.(at := later)) <==>
              var most := if l.burst.Some? then l.burst.value else l.limit;
              var length := if l.unit == Second then 1_000 else if l.unit == Minute then 60 * 1_000
                            else if l.unit == Hour then 60 * 60 * 1_000 else 24 * 60 * 60 * 1_000;
              calls < most || (most > 0 && later - r.at >= length)
  {
    hide *;
    var next := r.(at := later);
    AboutNext(l, r, later);
    AgainHistory(l, CounterKey(l, next), r, calls);
    NextCallFits(l, r.at, calls, later);
    AgainInOrder(r, calls, next);
    LimitAlone(l);
    TrueFits(l, Again(r, calls), next, Copies(r.at, calls));
    RateDecisionExact([l], Again(r, calls), next);
  }

  lemma AboutNext(l: Limit, r: Request, later: int)
    requires About(l, r.apiId, r.operationId, r.consumerId, r.organizationId)
    ensures Applies(l, r.(at := later)) && CountsOn(l, CounterKey(l, r.(at := later)), r)
  {
    CountsMeans(l, r, CounterKey(l, r));
    CountsMeans(l, r.(at := later), CounterKey(l, r));
  }

  lemma AgainInOrder(r: Request, n: nat, next: Request)
    requires r.at <= next.at
    ensures InOrder(Again(r, n) + [next])
  {
    AgainIs(r, n);
  }

  lemma LimitAlone(l: Limit)
    ensures KeysApart([l]) && forall m :: m in [l] <==> m == l
  {
  }

  lemma TrueFits(l: Limit, requests: seq<Request>, r: Request, times: seq<int>)
    requires History(l, CounterKey(l, r), requests) == times
    ensures TrueCount(l, requests, r) <= l.Ceiling() <==> RetryFits(l, times, r.at)
  {
    hide CounterKey, History, Kept;
  }

  // --- what a decision tells --------------------------------------------------

  function Left(ceiling: nat, count: nat): nat { if count <= ceiling then ceiling - count else 0 }

  /**
   * An allowance names a limit with as little left as any, and flags exactly a shadow limit past its
   * ceiling; a refusal names a limit past its own and has nothing left.
   */
  lemma DecisionTells(hits: Hits, ls: seq<Limit>, r: Request, d: Decision)
    requires DecidesRate(hits, ls, r, d) && ls != []
    ensures exists i: nat :: i < |ls| && d.limitId == Some(ls[i].limitId) && d.remaining == Left(ls[i].Ceiling(), CountAt(hits, ls, r, i))
              && (d.allowed ==> forall j :: 0 <= j < |ls| ==> d.remaining <= Left(ls[j].Ceiling(), CountAt(hits, ls, r, j)))
              && (!d.allowed ==> d.remaining == 0 && ls[i].action == Refuse && CountAt(hits, ls, r, i) > ls[i].Ceiling())
    ensures d.allowed ==> (d.wouldHaveRefused <==> exists j :: 0 <= j < |ls| && ls[j].action == Shadow && CountAt(hits, ls, r, j) > ls[j].Ceiling())
    ensures d.allowed <==> forall j :: 0 <= j < |ls| && ls[j].action == Refuse ==> CountAt(hits, ls, r, j) <= ls[j].Ceiling()
  {
    hide CountAt;
    assert forall j: nat :: j < |ls| ==> Remaining(hits, ls, r, j) == Left(ls[j].Ceiling(), CountAt(hits, ls, r, j));
    if d.allowed {
      assert ShadowedAfter(hits, ls, r, |ls|, d.wouldHaveRefused);
    }
  }
}
