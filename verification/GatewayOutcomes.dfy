/** Which stage decides a request, and what it leaves on record, in the fields of the request and of what it resolved to. */
module GatewayOutcomes {
  import opened Text
  import opened Catalog
  import opened Gateway
  import Calendar
  import C = Consumers
  import Scopes
  import R = RateLimits
  import Q = Quotas

  /** What the request names, as far as it exists. */
  function ApiOf(o: Options, r: GateRequest): Option<Definition> {
    if r.apiId + "@" + r.version in o.apis then Some(o.apis[r.apiId + "@" + r.version]) else None
  }

  function OperationOf(o: Options, r: GateRequest): Option<Operation> {
    match ApiOf(o, r)
    case None => None
    case Some(api) => FindOperation(api, r.verb, r.path)
  }

  /** The consumer is looked up only for an operation that exists. */
  function CallerOf(o: Options, r: GateRequest): Option<C.Consumer> {
    if OperationOf(o, r).Some? && r.consumerId in o.consumers then Some(o.consumers[r.consumerId]) else None
  }

  /** Each stage is reached only past the ones before it, and the first that refuses is the one named. */
  lemma StagesInOrder(o: Options, s: State, r: GateRequest)
    ensures var outcome := Decide(o, s, r).1; var api, operation, caller := ApiOf(o, r), OperationOf(o, r), CallerOf(o, r);
            && (api.None? ==> outcome == Refused(CatalogStage, "api_not_found"))
            && (api.Some? && operation.None? ==> outcome == Refused(CatalogStage, "operation_not_declared"))
            && (operation.Some? && caller.None? ==> outcome == Refused(EntitlementStage, "consumer_not_registered"))
            && (caller.Some? ==>
                  var access := C.DecideAccess(caller.value, api.value, operation.value, r.at);
                  var context := Context(caller.value, api.value, operation.value, access.entitlement, r.at);
                  && (access.code != C.Allowed ==> outcome.Refused? && outcome.stage == EntitlementStage)
                  && (access.code == C.Allowed ==>
                        if exists p :: p in o.policies && p(context).Some? then
                          exists i :: 0 <= i < |o.policies| && o.policies[i](context) == Some(outcome.code) && outcome == Refused(PolicyStage, outcome.code)
                            && forall j :: 0 <= j < i ==> o.policies[j](context) == None
                        else outcome in {Allowed, Refused(RateStage, "rate_limited"), Refused(QuotaStage, "quota_exhausted")}))
  {
    hide R.HitAll, R.Permits, R.ApplicableLimits, Q.Decide, QuotaKey, FindOperation, C.DecideAccess;
    if CallerOf(o, r).Some? {
      var access := C.DecideAccess(CallerOf(o, r).value, ApiOf(o, r).value, OperationOf(o, r).value, r.at);
      var context := Context(CallerOf(o, r).value, ApiOf(o, r).value, OperationOf(o, r).value, access.entitlement, r.at);
      var denial := FirstDenial(o.policies, context);
      hide FirstDenial;
    }
  }

  /** What the entitlement found makes of the call. */
  predicate EntitledFor(e: C.Entitlement, api: Definition, operation: Operation, at: int, outcome: Outcome) {
    if e.expiresAt.Some? && e.expiresAt.value <= at then outcome == Refused(EntitlementStage, "entitlement_expired")
    else if e.operationIds != [] && operation.operationId !in e.operationIds then outcome == Refused(EntitlementStage, "operation_not_entitled")
    else if !Scopes.ScopesSatisfyAll(e.scopes, if operation.scopes != [] then operation.scopes else api.scopes)
      then outcome == Refused(EntitlementStage, "scope_not_granted")
    else outcome.Allowed? || outcome.stage != EntitlementStage
  }

  /** Of the reasons to refuse a known consumer a known operation, the first that holds is the one given. */
  lemma AccessRefusedFor(o: Options, s: State, r: GateRequest)
    requires CallerOf(o, r).Some?
    ensures var outcome := Decide(o, s, r).1; var api, operation, caller := ApiOf(o, r).value, OperationOf(o, r).value, CallerOf(o, r).value;
            if caller.status != C.Active then outcome == Refused(EntitlementStage, "consumer_not_active")
            else if caller.environment != api.environment then outcome == Refused(EntitlementStage, "wrong_environment")
            else if api.lifecycle == RETIRED then outcome == Refused(EntitlementStage, "version_retired")
            else if forall e :: e in caller.entitlements ==> e.apiId != api.apiId || e.majorVersion != api.version.major then
              outcome == Refused(EntitlementStage, "no_entitlement")
            else exists i :: C.FirstFor(caller.entitlements, api.apiId, api.version.major, i)
                               && EntitledFor(caller.entitlements[i], api, operation, r.at, outcome)
  {
    hide R.HitAll, R.Permits, R.ApplicableLimits, Q.Decide, QuotaKey, FindOperation, FirstDenial, Scopes.ScopesSatisfyAll, CountRate, CountQuota;
    var api, caller := ApiOf(o, r).value, CallerOf(o, r).value;
    var found := C.FindEntitlement(caller.entitlements, api.apiId, api.version.major);
    hide C.FindEntitlement;
    if found.Some? {
      var i :| C.FirstFor(caller.entitlements, api.apiId, api.version.major, i) && found.value == caller.entitlements[i];
      assert caller.entitlements[i] in caller.entitlements;
    }
  }

  // --- the record and the audit entry -----------------------------------------

  /** The record of a request, in the fields of what it named: all that an analytics reader sees. */
  lemma RecordInFields(o: Options, r: GateRequest, s: State)
    ensures var outcome := Decide(o, s, r).1; var rec := RecordOf(o, r, outcome);
            var api, operation, caller := ApiOf(o, r), OperationOf(o, r), CallerOf(o, r);
            && rec.recordedAt == r.at && rec.outcome == outcome && rec.correlationId == r.correlationId
            && (outcome.Allowed? ==> rec.apiId == api.value.apiId && rec.apiVersion == VersionText(api.value.version) && rec.verb == operation.value.verb)
            && (outcome.Refused? ==> rec.apiId == r.apiId && rec.apiVersion == r.version && rec.verb == r.verb)
            && rec.operationId == (if operation.Some? then operation.value.operationId else "unknown")
            && rec.deprecated == (operation.Some? && operation.value.deprecated)
            && rec.consumerId == (if caller.Some? then caller.value.consumerId else r.consumerId)
            && rec.organizationId == (if caller.Some? then caller.value.organizationId else None)
            && rec.classification == (if operation.Some? then operation.value.classification
                                      else if api.Some? then ApiClassification(api.value.operations) else PUBLIC)
  {
    hide R.HitAll, R.Permits, R.ApplicableLimits, Q.Decide, QuotaKey, FindOperation, C.DecideAccess, FirstDenial, CountRate, CountQuota, ApiClassification, VersionText;
  }

  /** A refusal for access or by policy, where there is an audit trail, is entered there; nothing else is. */
  lemma AuditedExactly(o: Options, s: State, r: GateRequest)
    ensures var outcome := Decide(o, s, r).1; var (after, result) := Step(o, s, r); var caller := CallerOf(o, r);
            after.audit == if o.audited && result == Returned(outcome) && outcome.Refused? && (outcome.stage == EntitlementStage || outcome.stage == PolicyStage)
                           then s.audit + [AuditEntry(r.apiId + "@" + r.version, if caller.Some? then caller.value.consumerId else r.consumerId,
                                                      outcome.stage, outcome.code)]
                           else s.audit
  {
    RecordInFields(o, r, s);
    hide Decide, Fits, RecordOf, CallerOf;
    DecideKeepsTrail(o, s, r);
  }

  lemma DecideKeepsTrail(o: Options, s: State, r: GateRequest)
    ensures Decide(o, s, r).0.audit == s.audit && Decide(o, s, r).0.analytics == s.analytics
  {
    hide R.HitAll, R.Permits, R.ApplicableLimits, Q.Decide, QuotaKey, Authorize;
  }

  /** A request fails after it was decided exactly when its record has a field its schema refuses. */
  lemma ThrowsExactly(o: Options, s: State, r: GateRequest)
    ensures var rec, outcome := RecordOf(o, r, Decide(o, s, r).1), Decide(o, s, r).1;
            Step(o, s, r).1 == (if o.analytics
                                   && !(&& 0 <= Calendar.CivilOf(r.at).year <= 9999
                                        && 3 <= |rec.apiId| <= 64 && 5 <= |rec.apiVersion| <= 20 && 3 <= |rec.operationId| <= 120
                                        && 3 <= |rec.verb| <= 10 && 1 <= |rec.consumerId| <= 64
                                        && (rec.organizationId == None || 1 <= |rec.organizationId.value| <= 64)
                                        && (r.correlationId == None || 1 <= |r.correlationId.value| <= 64)
                                        && (outcome.Allowed? || |outcome.code| <= 64))
                                then Threw else Returned(outcome))
  {
    RecordInFields(o, r, s);
    hide Decide, RecordOf, Calendar.CivilOf;
  }
}
