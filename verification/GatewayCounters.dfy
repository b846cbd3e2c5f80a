/** What a request at the gate counts against, in the ids of the API, the operation and the consumer it resolved to. */
module GatewayCounters {
  import opened Text
  import opened Sorting
  import opened Catalog
  import opened Gateway
  import C = Consumers
  import R = RateLimits
  import Q = Quotas
  import RateScopes

  /** The limits of this gate, if it has any. */
  function LimitsOf(o: Options): seq<R.Limit> { if o.rateLimits.Some? then o.rateLimits.value else [] }

  lemma StepHits(o: Options, s: State, r: GateRequest)
    ensures var after := Step(o, s, r).0;
            match Authorize(o, r)
            case Stop(_, _, _, _, _) => after.hits == s.hits
            case Go(api, operation, consumer) =>
              var rr := RateRequest(r, api, operation, consumer);
              after.hits == if o.rateLimits.None? then s.hits else R.HitAll(s.hits, R.ApplicableLimits(o.rateLimits.value, rr), rr)
  {
    StepCounts(o, s, r);
    hide R.HitAll, R.Permits, Q.Decide, QuotaKey, Authorize, Step;
  }

  /**
   * A request moves a counter exactly when it got past the first three stages and some limit that names
   * no other API, operation, consumer or tenant keeps it for the API, operation and consumer resolved to.
   */
  lemma CountsExactly(o: Options, s: State, r: GateRequest, key: string)
    ensures R.Get(Step(o, s, r).0.hits, key) != R.Get(s.hits, key) <==>
              Authorize(o, r).Go?
              && var Go(api, operation, consumer) := Authorize(o, r);
                 exists l :: l in LimitsOf(o)
                   && l.apiId in {None, Some(api.apiId)} && l.operationId in {None, Some(operation.operationId)}
                   && (l.scope == R.PerConsumer ==> l.subjectId in {None, Some(consumer.consumerId)})
                   && (l.scope == R.Tenant ==> l.subjectId in {None, consumer.organizationId})
                   && key == l.limitId + ":"
                             + (if l.scope == R.Global then "global"
                                else if l.scope == R.Api then api.apiId
                                else if l.scope == R.Tenant then (if consumer.organizationId == None then "platform" else consumer.organizationId.value)
                                else if l.scope == R.PerConsumer then consumer.consumerId
                                else consumer.consumerId + ":" + operation.operationId)
  {
    StepHits(o, s, r);
    hide Authorize, Step, R.HitAll, R.ApplicableLimits, R.Get;
    if Authorize(o, r).Go? {
      var Go(api, operation, consumer) := Authorize(o, r);
      RateScopes.MovesExactly(LimitsOf(o), s.hits, RateRequest(r, api, operation, consumer), key);
    }
  }

  // --- one consumer's calls and another's -------------------------------------

  /** The registry files a consumer under its own id. */
  ghost predicate Registered(o: Options) { forall k :: k in o.consumers ==> o.consumers[k].consumerId == k }

  function By(consumerId: string): GateRequest -> bool { (r: GateRequest) => r.consumerId == consumerId }

  function CountedFor(consumerId: string): R.Request -> bool { (r: R.Request) => r.consumerId == consumerId }

  lemma CallerIs(o: Options, r: GateRequest)
    requires Registered(o) && Authorize(o, r).Go?
    ensures Authorize(o, r).caller.consumerId == r.consumerId
  {
    hide C.DecideAccess, FirstDenial, FindOperation;
  }

  lemma {:induction false} AuthorizedBy(o: Options, requests: seq<GateRequest>, consumerId: string)
    requires Registered(o)
    ensures Authorized(o, Filter(requests, By(consumerId))) == Filter(Authorized(o, requests), CountedFor(consumerId))
  {
    if requests != [] {
      var front, r := requests[..|requests| - 1], requests[|requests| - 1];
      assert requests == front + [r];
      AuthorizedBy(o, front, consumerId);
      FilterAppend(front, r, By(consumerId));
      if Authorize(o, r).Go? {
        CallerIs(o, r);
        var Go(api, operation, consumer) := Authorize(o, r);
        FilterAppend(Authorized(o, front), RateRequest(r, api, operation, consumer), CountedFor(consumerId));
      }
      hide Authorize, Filter, Registered;
      if r.consumerId == consumerId {
        var mine := Filter(front, By(consumerId));
        assert (mine + [r])[..|mine|] == mine;
      }
    }
  }

  /** A consumer's calls are nothing to another's own limits: without them its counters hold the same. */
  lemma ConsumersApart(o: Options, requests: seq<GateRequest>, l: R.Limit, consumerId: string)
    requires Registered(o) && R.KeysApart(LimitsOf(o)) && l in LimitsOf(o) && l.scope == R.PerConsumer
    ensures var mine := Filter(requests, (r: GateRequest) => r.consumerId == consumerId);
            R.Get(Run(o, requests).hits, l.limitId + ":" + consumerId) == R.Get(Run(o, mine).hits, l.limitId + ":" + consumerId)
  {
    var mine := Filter(requests, By(consumerId));
    assert mine == Filter(requests, (r: GateRequest) => r.consumerId == consumerId) by { SameFilter(requests, consumerId); }
    hide Run, R.RunHits, Authorized, R.KeysApart, R.Get, Filter;
    RateSeesAuthorized(o, requests);
    RateSeesAuthorized(o, mine);
    AuthorizedBy(o, requests, consumerId);
    RateScopes.OthersDropped(LimitsOf(o), l, R.Request("", "", consumerId, None, 0), Authorized(o, requests), CountedFor(consumerId));
  }

  lemma {:induction false} SameFilter(requests: seq<GateRequest>, consumerId: string)
    ensures Filter(requests, By(consumerId)) == Filter(requests, (r: GateRequest) => r.consumerId == consumerId)
  {
    if requests != [] { SameFilter(requests[..|requests| - 1], consumerId); }
  }

  lemma RateVerdict(o: Options, requests: seq<GateRequest>, r: GateRequest)
    requires o.rateLimits.Some? && Authorize(o, r).Go?
    ensures var Go(api, operation, consumer) := Authorize(o, r); var rr := RateRequest(r, api, operation, consumer);
            Decide(o, Run(o, requests), r).1 == Refused(RateStage, "rate_limited") <==>
              !R.Permits(R.RunHits(o.rateLimits.value, Authorized(o, requests)), R.ApplicableLimits(o.rateLimits.value, rr), rr)
  {
    RateSeesAuthorized(o, requests);
    hide Run, R.RunHits, R.Permits, R.ApplicableLimits, Authorized, Authorize, Q.Decide, QuotaKey;
  }

  /** So where every limit is a consumer's own, whether a call is refused for its rate depends on that consumer's calls alone. */
  lemma RefusedByOwnCalls(o: Options, requests: seq<GateRequest>, r: GateRequest)
    requires Registered(o) && R.KeysApart(LimitsOf(o)) && forall l :: l in LimitsOf(o) ==> l.scope == R.PerConsumer
    ensures var mine := Filter(requests, (q: GateRequest) => q.consumerId == r.consumerId);
            Decide(o, Run(o, requests), r).1 == Refused(RateStage, "rate_limited") <==> Decide(o, Run(o, mine), r).1 == Refused(RateStage, "rate_limited")
  {
    var mine := Filter(requests, By(r.consumerId));
    SameFilter(requests, r.consumerId);
    if o.rateLimits.Some? && Authorize(o, r).Go? {
      var Go(api, operation, consumer) := Authorize(o, r);
      var rr, limits, all := RateRequest(r, api, operation, consumer), o.rateLimits.value, Authorized(o, requests);
      CallerIs(o, r);
      assert rr.consumerId == r.consumerId;
      hide Run, R.RunHits, Authorized, R.KeysApart, Filter, Decide, R.Permits, R.ApplicableLimits, RateRequest, Authorize, Registered, RateScopes.Passed, RateScopes.About;
      RateVerdict(o, requests, r);
      RateVerdict(o, mine, r);
      AuthorizedBy(o, requests, r.consumerId);
      RateScopes.PermitsMeans(limits, all, rr);
      RateScopes.PermitsMeans(limits, Filter(all, CountedFor(r.consumerId)), rr);
      forall l | l in limits && RateScopes.About(l, rr.apiId, rr.operationId, rr.consumerId, rr.organizationId)
        ensures RateScopes.Passed(limits, all, l, rr) <==> RateScopes.Passed(limits, Filter(all, CountedFor(r.consumerId)), l, rr)
      {
        RateScopes.OthersDropped(limits, l, rr, all, CountedFor(r.consumerId));
      }
    } else {
      NeverRated(o, Run(o, requests), r);
      NeverRated(o, Run(o, mine), r);
    }
  }

  lemma NeverRated(o: Options, s: State, r: GateRequest)
    requires o.rateLimits.None? || Authorize(o, r).Stop?
    ensures Decide(o, s, r).1 != Refused(RateStage, "rate_limited")
  {
    hide R.HitAll, R.Permits, Q.Decide, QuotaKey, FindOperation, C.DecideAccess;
  }

  // --- the window, in the same terms ------------------------------------------

  /** Of the requests that arrived in `(start, start + length]`, those allowed that a limit counts under a key. */
  function AllowedAbout(o: Options, l: R.Limit, key: string, requests: seq<GateRequest>, start: int, length: int): nat {
    if requests == [] then 0
    else
      var n := |requests| - 1;
      AllowedAbout(o, l, key, requests[..n], start, length)
      + match Authorize(o, requests[n])
        case Stop(_, _, _, _, _) => 0
        case Go(api, operation, consumer) =>
          if OutcomeAt(o, requests, n) == Allowed && start < requests[n].at <= start + length
             && RateScopes.About(l, api.apiId, operation.operationId, consumer.consumerId, consumer.organizationId)
             && key == RateScopes.CounterText(l, api.apiId, operation.operationId, consumer.consumerId, consumer.organizationId) then 1 else 0
  }

  lemma {:induction false} AllowedAboutIs(o: Options, l: R.Limit, key: string, requests: seq<GateRequest>, start: int)
    ensures AllowedAbout(o, l, key, requests, start, l.unit.Ms()) == AllowedInWindow(o, l, key, requests, start)
  {
    if requests != [] {
      var n := |requests| - 1;
      AllowedAboutIs(o, l, key, requests[..n], start);
      if Authorize(o, requests[n]).Go? {
        var Go(api, operation, consumer) := Authorize(o, requests[n]);
        RateScopes.CountsMeans(l, RateRequest(requests[n], api, operation, consumer), key);
      }
      hide Authorize, Decide, Run, RateScopes.About, RateScopes.CounterText, R.CountsOn;
    }
  }

  /** In no second, minute, hour or day does a refusing limit let more through than its burst, or without one its limit. */
  lemma WindowHoldsInFields(o: Options, l: R.Limit, sample: R.Request, requests: seq<GateRequest>, start: int)
    requires R.KeysApart(LimitsOf(o)) && l in LimitsOf(o) && l.action == R.Refuse
    requires forall i, j :: 0 <= i < j < |requests| ==> requests[i].at <= requests[j].at
    ensures var key := RateScopes.CounterText(l, sample.apiId, sample.operationId, sample.consumerId, sample.organizationId);
            var length := if l.unit == R.Second then 1_000 else if l.unit == R.Minute then 60 * 1_000
                          else if l.unit == R.Hour then 60 * 60 * 1_000 else 24 * 60 * 60 * 1_000;
            AllowedAbout(o, l, key, requests, start, length) <= if l.burst.Some? then l.burst.value else l.limit
  {
    RateScopes.CountsMeans(l, sample, "");
    AllowedAboutIs(o, l, R.CounterKey(l, sample), requests, start);
    WindowHoldsAtGate(o, l, sample, requests, start);
    hide AllowedAbout, AllowedInWindow, RateScopes.CounterText, R.CounterKey, R.KeysApart;
  }
}
