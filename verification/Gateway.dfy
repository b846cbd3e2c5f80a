/** The gate: catalog, entitlement, policy, rate, quota, in that order, and what each request leaves behind. */
module Gateway {
  import opened Text
  import opened Catalog
  import C = Consumers
  import R = RateLimits
  import Q = Quotas
  import P = QuotaPeriods
  import Calendar
  import IsoText

  datatype GateRequest = GateRequest(
    apiId: string,
    version: string,
    verb: string,
    path: string,
    consumerId: string,
    at: int,
    correlationId: Option<string>)

  datatype Stage = CatalogStage | EntitlementStage | PolicyStage | RateStage | QuotaStage

  datatype Outcome = Allowed | Refused(stage: Stage, code: string)

  /** What a policy document may look at. */
  datatype Context = Context(consumer: C.Consumer, api: Definition, operation: Operation, entitlement: Option<C.Entitlement>, at: int)

  /** A document's verdict: the id it denies under, or nothing. The evaluator itself is not modelled. */
  type Policy = Context -> Option<string>

  datatype Options = Options(
    apis: map<string, Definition>,
    consumers: map<string, C.Consumer>,
    policies: seq<Policy>,
    rateLimits: Option<seq<R.Limit>>,
    quotaFor: (C.Consumer, Definition) -> Option<Q.Quota>,
    analytics: bool,
    audited: bool)

  /** The analytics record of one request. */
  datatype Record = Record(
    recordedAt: int,
    apiId: string,
    apiVersion: string,
    operationId: string,
    verb: string,
    consumerId: string,
    organizationId: Option<string>,
    outcome: Outcome,
    deprecated: bool,
    classification: Classification,
    correlationId: Option<string>)

  datatype AuditEntry = AuditEntry(entityId: string, consumerId: string, stage: Stage, code: string)

  datatype State = State(hits: R.Hits, totals: map<string, nat>, analytics: seq<Record>, audit: seq<AuditEntry>)

  /** What the caller sees: the outcome, or a schema error raised while recording it. */
  datatype Result = Returned(outcome: Outcome) | Threw

  // --- stages one to three: no counter is touched -----------------------------

  datatype Verdict =
    | Stop(stage: Stage, code: string, api: Option<Definition>, operation: Option<Operation>, consumer: Option<C.Consumer>)
    | Go(found: Definition, matched: Operation, caller: C.Consumer)

  function CodeText(code: C.Code): string {
    match code
    case Allowed => "allowed"
    case ConsumerNotActive => "consumer_not_active"
    case WrongEnvironment => "wrong_environment"
    case VersionRetired => "version_retired"
    case NoEntitlement => "no_entitlement"
    case EntitlementExpired => "entitlement_expired"
    case OperationNotEntitled => "operation_not_entitled"
    case ScopeNotGranted => "scope_not_granted"
  }

  /** The first document that denies; a later permit never masks it. */
  function FirstDenial(policies: seq<Policy>, context: Context): (r: Option<string>)
    ensures r.None? <==> forall p :: p in policies ==> p(context).None?
    ensures r.Some? ==> exists i :: 0 <= i < |policies| && policies[i](context) == r
                          && forall j :: 0 <= j < i ==> policies[j](context).None?
  {
    if policies == [] then None
    else if policies[0](context).Some? then policies[0](context)
    else
      var rest := FirstDenial(policies[1..], context);
      assert rest.Some? ==> exists i :: 1 <= i < |policies| && policies[i](context) == rest
                               && forall j :: 0 <= j < i ==> policies[j](context).None? by {
        if rest.Some? {
          var i :| 0 <= i < |policies[1..]| && policies[1..][i](context) == rest
            && forall j :: 0 <= j < i ==> policies[1..][j](context).None?;
          assert policies[i + 1](context) == rest;
          forall j | 0 <= j < i + 1 ensures policies[j](context).None? {
            if j > 0 { assert policies[1..][j - 1](context).None?; }
          }
        }
      }
      rest
  }

  function Authorize(o: Options, r: GateRequest): Verdict {
    var key := r.apiId + "@" + r.version;
    if key !in o.apis then Stop(CatalogStage, "api_not_found", None, None, None)
    else
      var api := o.apis[key];
      match FindOperation(api, r.verb, r.path)
      case None => Stop(CatalogStage, "operation_not_declared", Some(api), None, None)
      case Some(operation) =>
        if r.consumerId !in o.consumers then
          Stop(EntitlementStage, "consumer_not_registered", Some(api), Some(operation), None)
        else
          var consumer := o.consumers[r.consumerId];
          var access := C.DecideAccess(consumer, api, operation, r.at);
          if access.code != C.Allowed then
            Stop(EntitlementStage, CodeText(access.code), Some(api), Some(operation), Some(consumer))
          else match FirstDenial(o.policies, Context(consumer, api, operation, access.entitlement, r.at))
            case Some(policyId) => Stop(PolicyStage, policyId, Some(api), Some(operation), Some(consumer))
            case None => Go(api, operation, consumer)
  }

  // --- recording --------------------------------------------------------------

  predicate Within(s: string, low: nat, high: nat) { low <= |s| <= high }

  /** What the record schema demands; the source parses every record through it. */
  predicate Fits(rec: Record) {
    && IsoText.FourDigits(Calendar.CivilOf(rec.recordedAt).year)
    && Within(rec.apiId, 3, 64) && Within(rec.apiVersion, 5, 20)
    && Within(rec.operationId, 3, 120) && Within(rec.verb, 3, 10)
    && Within(rec.consumerId, 1, 64)
    && (rec.organizationId.Some? ==> Within(rec.organizationId.value, 1, 64))
    && (rec.outcome.Refused? ==> |rec.outcome.code| <= 64)
    && (rec.correlationId.Some? ==> Within(rec.correlationId.value, 1, 64))
  }

  function RefusalRecord(r: GateRequest, v: Verdict, outcome: Outcome): Record {
    var api := if v.Stop? then v.api else Some(v.found);
    var operation := if v.Stop? then v.operation else Some(v.matched);
    var consumer := if v.Stop? then v.consumer else Some(v.caller);
    Record(r.at, r.apiId, r.version,
           if operation.Some? then operation.value.operationId else "unknown",
           r.verb,
           if consumer.Some? then consumer.value.consumerId else r.consumerId,
           if consumer.Some? then consumer.value.organizationId else None,
           outcome,
           operation.Some? && operation.value.deprecated,
           if operation.Some? then operation.value.classification
           else if api.Some? then ApiClassification(api.value.operations) else PUBLIC,
           r.correlationId)
  }

  function AllowedRecord(r: GateRequest, api: Definition, operation: Operation, consumer: C.Consumer): Record {
    Record(r.at, api.apiId, VersionText(api.version), operation.operationId, operation.verb, consumer.consumerId,
           consumer.organizationId, Allowed, operation.deprecated, operation.classification, r.correlationId)
  }

  function RecordOf(o: Options, r: GateRequest, outcome: Outcome): Record {
    match (Authorize(o, r), outcome)
    case (Go(api, operation, consumer), Allowed) => AllowedRecord(r, api, operation, consumer)
    case (v, _) => RefusalRecord(r, v, outcome)
  }

  predicate Auditable(outcome: Outcome) { outcome.Refused? && outcome.stage in {EntitlementStage, PolicyStage} }

  /** Records the outcome, unless the schema rejects the record: then nothing more is written. */
  function Finish(o: Options, s: State, r: GateRequest, outcome: Outcome): (State, Result) {
    var rec := RecordOf(o, r, outcome);
    if o.analytics && !Fits(rec) then (s, Threw)
    else
      var recorded := if o.analytics then s.(analytics := s.analytics + [rec]) else s;
      var audited := if o.audited && Auditable(outcome)
                     then recorded.(audit := recorded.audit + [AuditEntry(r.apiId + "@" + r.version, rec.consumerId, outcome.stage, outcome.code)])
                     else recorded;
      (audited, Returned(outcome))
  }

  // --- stages four and five ---------------------------------------------------

  function RateRequest(r: GateRequest, api: Definition, operation: Operation, consumer: C.Consumer): R.Request {
    R.Request(api.apiId, operation.operationId, consumer.consumerId, consumer.organizationId, r.at)
  }

  function QuotaKey(q: Q.Quota, at: int): string {
    Q.StoreKey(q.quotaId, P.PeriodFor(q.period, q.resetDayOfMonth, at).key)
  }

  /** Stage four: every applicable limit counts the request, then it is decided. */
  function CountRate(limits: Option<seq<R.Limit>>, s: State, rr: R.Request): (State, bool) {
    if limits.None? then (s, true)
    else
      var ls := R.ApplicableLimits(limits.value, rr);
      (s.(hits := R.HitAll(s.hits, ls, rr)), R.Permits(s.hits, ls, rr))
  }

  /** Stage five: the call is counted, then it is decided. */
  function CountQuota(quota: Option<Q.Quota>, s: State, at: int): (State, bool) {
    if quota.None? then (s, true)
    else
      var key := QuotaKey(quota.value, at);
      var before := Q.Total(s.totals, key);
      (s.(totals := s.totals[key := before + 1]), Q.Decide(quota.value, before, before + 1).allowed)
  }

  /** The gate's own decision, and the counters after it. */
  function Decide(o: Options, s: State, r: GateRequest): (State, Outcome) {
    match Authorize(o, r)
    case Stop(stage, code, _, _, _) => (s, Refused(stage, code))
    case Go(api, operation, consumer) =>
      var (rated, permitted) := CountRate(o.rateLimits, s, RateRequest(r, api, operation, consumer));
      if !permitted then (rated, Refused(RateStage, "rate_limited"))
      else
        var (billed, within) := CountQuota(o.quotaFor(consumer, api), rated, r.at);
        (billed, if within then Allowed else Refused(QuotaStage, "quota_exhausted"))
  }

  function Step(o: Options, s: State, r: GateRequest): (State, Result) {
    var (counted, outcome) := Decide(o, s, r);
    Finish(o, counted, r, outcome)
  }

  class InMemoryAnalyticsSink {
    var entries: seq<Record>
    var audit: seq<AuditEntry>

    constructor ()
      ensures entries == [] && audit == []
    {
      entries, audit := [], [];
    }
  }

  class ApiGateway {
    const options: Options
    const rateStore: R.InMemoryRateCounterStore
    const quotaStore: Q.InMemoryQuotaUsageStore
    const sink: InMemoryAnalyticsSink

    ghost function Contents(): State
      reads rateStore, quotaStore, sink
    {
      State(rateStore.hits, quotaStore.totals, sink.entries, sink.audit)
    }

    constructor (options: Options)
      ensures this.options == options && Contents() == State(map[], map[], [], [])
      ensures fresh(rateStore) && fresh(quotaStore) && fresh(sink)
    {
      this.options := options;
      rateStore := new R.InMemoryRateCounterStore();
      quotaStore := new Q.InMemoryQuotaUsageStore();
      sink := new InMemoryAnalyticsSink();
    }

    /** Writes the record, then the audit entry; a record the schema rejects raises first. */
    method Conclude(r: GateRequest, outcome: Outcome) returns (result: Result)
      modifies sink
      ensures (Contents(), result) == Finish(options, old(Contents()), r, outcome)
    {
      var rec := RecordOf(options, r, outcome);
      if options.analytics {
        if !Fits(rec) { return Threw; }
        sink.entries := sink.entries + [rec];
      }
      if options.audited && Auditable(outcome) {
        sink.audit := sink.audit + [AuditEntry(r.apiId + "@" + r.version, rec.consumerId, outcome.stage, outcome.code)];
      }
      return Returned(outcome);
    }

    method Rate(rr: R.Request) returns (permitted: bool)
      modifies rateStore
      ensures (Contents(), permitted) == CountRate(options.rateLimits, old(Contents()), rr)
    {
      hide R.ApplicableLimits, R.HitAll, R.Permits, R.DecidesRate;
      if options.rateLimits.None? { return true; }
      var decision := R.CheckRate(options.rateLimits.value, rr, rateStore);
      return decision.allowed;
    }

    method Bill(quota: Option<Q.Quota>, at: int) returns (within: bool)
      modifies quotaStore
      ensures (Contents(), within) == CountQuota(quota, old(Contents()), at)
    {
      hide P.PeriodFor, Q.Decide;
      if quota.None? { return true; }
      var decision := Q.ConsumeQuota(quota.value, quotaStore, at, 1);
      return decision.allowed;
    }

    method Check(r: GateRequest) returns (result: Result)
      modifies rateStore, quotaStore, sink
      ensures (Contents(), result) == Step(options, old(Contents()), r)
    {
      hide Finish, Authorize, CountRate, CountQuota;
      var verdict := Authorize(options, r);
      if verdict.Stop? {
        result := Conclude(r, Refused(verdict.stage, verdict.code));
        return;
      }
      var permitted := Rate(RateRequest(r, verdict.found, verdict.matched, verdict.caller));
      if !permitted {
        result := Conclude(r, Refused(RateStage, "rate_limited"));
        return;
      }
      var within := Bill(options.quotaFor(verdict.caller, verdict.found), r.at);
      result := Conclude(r, if within then Allowed else Refused(QuotaStage, "quota_exhausted"));
    }
  }

  // --- one request ------------------------------------------------------------

  /** The quota a request is billed to, if it gets that far. */
  function QuotaOf(o: Options, r: GateRequest): Option<Q.Quota> {
    match Authorize(o, r)
    case Stop(_, _, _, _, _) => None
    case Go(api, operation, consumer) => o.quotaFor(consumer, api)
  }

  /** Only an allowed or a quota-refused request is billed, once, under its own key. */
  lemma BilledExactly(o: Options, s: State, r: GateRequest)
    ensures var (after, outcome) := Decide(o, s, r); var q := QuotaOf(o, r);
            if q.Some? && (outcome.Allowed? || outcome.stage.QuotaStage?)
            then var key := QuotaKey(q.value, r.at); after.totals == s.totals[key := Q.Total(s.totals, key) + 1]
            else after.totals == s.totals
  {
    hide R.HitAll, R.Permits, Q.Decide, QuotaKey, FindOperation, C.DecideAccess;
  }

  /** Refusals before the rate stage leave every counter as it was; a rate refusal leaves every quota. */
  lemma RefusalsDoNotCount(o: Options, s: State, r: GateRequest)
    ensures var (after, outcome) := Decide(o, s, r);
            && (Authorize(o, r).Stop? ==> after == s && outcome.Refused? && outcome.stage !in {RateStage, QuotaStage})
            && (outcome.Refused? && outcome.stage !in {RateStage, QuotaStage} ==> after == s)
            && (outcome == Refused(RateStage, "rate_limited") ==> after.totals == s.totals)
  {
    hide R.HitAll, R.Permits, Q.Decide, QuotaKey, FindOperation, C.DecideAccess;
  }

  /**
   * A request leaves exactly one analytics record, matching what the caller is told, exactly when
   * the schema accepts the record; otherwise it raises after its counters have moved. Access and
   * policy refusals, and only those, also reach the audit trail.
   */
  lemma RecordedExactly(o: Options, s: State, r: GateRequest)
    requires o.analytics
    ensures var outcome := Decide(o, s, r).1; var (after, result) := Step(o, s, r); var rec := RecordOf(o, r, outcome);
            && rec.outcome == outcome && rec.recordedAt == r.at
            && after.hits == Decide(o, s, r).0.hits && after.totals == Decide(o, s, r).0.totals
            && (result == Returned(outcome) <==> Fits(rec))
            && after.analytics == (if Fits(rec) then s.analytics + [rec] else s.analytics)
            && |after.audit| == |s.audit| + (if o.audited && Fits(rec) && Auditable(outcome) then 1 else 0)
  {
    hide R.HitAll, R.Permits, Q.Decide, QuotaKey, FindOperation, C.DecideAccess, Fits;
  }

  /**
   * For an allowed call to a definition and consumer the schemas accept, the record fits exactly
   * when the year has four digits, the version text is at most twenty characters, and the
   * correlation id, if any, is one to sixty-four.
   */
  lemma AllowedRecordFits(r: GateRequest, api: Definition, operation: Operation, consumer: C.Consumer)
    requires Within(api.apiId, 3, 64) && Within(operation.operationId, 3, 120) && Within(operation.verb, 3, 10)
    requires Within(consumer.consumerId, 3, 64)
    requires consumer.organizationId.Some? ==> Within(consumer.organizationId.value, 1, 64)
    ensures Fits(AllowedRecord(r, api, operation, consumer)) <==>
              && IsoText.FourDigits(Calendar.CivilOf(r.at).year)
              && |VersionText(api.version)| <= 20
              && (r.correlationId.Some? ==> Within(r.correlationId.value, 1, 64))
  {
  }

  /** So a call can be billed and then fail, unrecorded: a correlation id one character too long does it. */
  lemma BilledWithoutRecord(o: Options, s: State, r: GateRequest)
    requires o.analytics && QuotaOf(o, r).Some? && Decide(o, s, r).1.Allowed?
    requires r.correlationId.Some? && |r.correlationId.value| == 65
    ensures var (after, result) := Step(o, s, r); var key := QuotaKey(QuotaOf(o, r).value, r.at);
            && result == Threw && after.analytics == s.analytics
            && Q.Total(after.totals, key) == Q.Total(s.totals, key) + 1
  {
    hide Decide, QuotaKey, FindOperation, Authorize;
    BilledExactly(o, s, r);
    RecordedExactly(o, s, r);
    assert RecordOf(o, r, Allowed).correlationId == r.correlationId;
  }

  // One such call: an API with its root declared, a consumer entitled to it, a hard quota of ten.

  function SampleApi(): Definition {
    Definition("payments", Semver(1, 0, 0), Staging, PUBLISHED, ApiKey, [], [Operation("ping", "GET", "/", [], PUBLIC, true, false)])
  }

  function SampleConsumer(): C.Consumer {
    C.Consumer("till", None, Staging, [C.Entitlement("payments", 1, [], ["payments:read"], None)], C.Active)
  }

  function SampleQuota(): Q.Quota { Q.Quota("q", P.Daily, 1, 10, Q.Hard, []) }

  function SampleOptions(): Options {
    Options(map["payments" + "@" + "1.0.0" := SampleApi()], map["till" := SampleConsumer()], [], None,
            (_, _) => Some(SampleQuota()), true, true)
  }

  function SampleRequest(): GateRequest {
    GateRequest("payments", "1.0.0", "GET", "/", "till", 0, Some(seq(65, _ => 'x')))
  }

  lemma SampleAuthorized()
    ensures Authorize(SampleOptions(), SampleRequest()) == Go(SampleApi(), SampleApi().operations[0], SampleConsumer())
  {
    RootPath();
    var r, api := SampleRequest(), SampleApi();
    hide Segments, RequestSegments, Escapes;
    assert Answers(api.operations[0], "GET", "/");
    assert FindOperation(api, "GET", "/") == Some(api.operations[0]);
    hide FindOperation, Answers;
    C.AllowedExactly(SampleConsumer(), api, api.operations[0], 0);
    assert C.FirstFor(SampleConsumer().entitlements, "payments", 1, 0);
    assert C.DecideAccess(SampleConsumer(), api, api.operations[0], 0).code == C.Allowed;
    hide C.DecideAccess;
  }

  /** From nothing counted, it is allowed, counted, and throws without a record. */
  lemma BilledWithoutRecordHappens()
    ensures var o, s, r := SampleOptions(), State(map[], map[], [], []), SampleRequest();
            var (after, result) := Step(o, s, r); var key := QuotaKey(SampleQuota(), r.at);
            && Decide(o, s, r).1.Allowed? && result == Threw
            && after.analytics == [] && Q.Total(after.totals, key) == 1
  {
    var o, s, r := SampleOptions(), State(map[], map[], [], []), SampleRequest();
    SampleAuthorized();
    hide Authorize, QuotaKey;
    assert QuotaOf(o, r) == Some(SampleQuota());
    assert Decide(o, s, r).1.Allowed?;
    assert |r.correlationId.value| == 65;
    hide Decide, Step;
    BilledWithoutRecord(o, s, r);
  }

  // --- runs -------------------------------------------------------------------

  function Run(o: Options, requests: seq<GateRequest>): State {
    if requests == [] then State(map[], map[], [], [])
    else Step(o, Run(o, requests[..|requests| - 1]), requests[|requests| - 1]).0
  }

  /** The decision the gate makes on the i-th request of a run. */
  function OutcomeAt(o: Options, requests: seq<GateRequest>, i: nat): Outcome
    requires i < |requests|
  {
    Decide(o, Run(o, requests[..i]), requests[i]).1
  }

  predicate BilledTo(o: Options, r: GateRequest, key: string) {
    QuotaOf(o, r).Some? && QuotaKey(QuotaOf(o, r).value, r.at) == key
  }

  /** Requests on a quota that ended with a given kind of outcome. */
  function CountOutcomes(o: Options, requests: seq<GateRequest>, key: string, allowed: bool): nat {
    if requests == [] then 0
    else
      var n := |requests| - 1;
      var outcome := OutcomeAt(o, requests, n);
      CountOutcomes(o, requests[..n], key, allowed)
      + if BilledTo(o, requests[n], key) && (if allowed then outcome.Allowed? else outcome == Refused(QuotaStage, "quota_exhausted"))
        then 1 else 0
  }

  lemma StepCounts(o: Options, s: State, r: GateRequest)
    ensures Step(o, s, r).0.totals == Decide(o, s, r).0.totals && Step(o, s, r).0.hits == Decide(o, s, r).0.hits
  {
    hide Decide, Fits, RecordOf;
  }

  lemma QuotaOutcome(o: Options, s: State, r: GateRequest)
    ensures var outcome := Decide(o, s, r).1;
            && (outcome.Refused? && outcome.stage.QuotaStage? ==> outcome == Refused(QuotaStage, "quota_exhausted"))
            && (QuotaOf(o, r).None? ==> outcome.Allowed? || !outcome.stage.QuotaStage?)
  {
    hide R.HitAll, R.Permits, Q.Decide, QuotaKey, FindOperation, C.DecideAccess;
  }

  /** Over any run, what a quota has counted is what was allowed under it plus what it refused. */
  lemma {:induction false} QuotaConserved(o: Options, requests: seq<GateRequest>, key: string)
    ensures Q.Total(Run(o, requests).totals, key)
            == CountOutcomes(o, requests, key, true) + CountOutcomes(o, requests, key, false)
  {
    if requests != [] {
      var front, r := requests[..|requests| - 1], requests[|requests| - 1];
      QuotaConserved(o, front, key);
      hide Decide, QuotaKey, Authorize, Finish;
      StepCounts(o, Run(o, front), r);
      BilledExactly(o, Run(o, front), r);
      QuotaOutcome(o, Run(o, front), r);
    }
  }

  lemma QuotaVerdict(o: Options, s: State, r: GateRequest)
    requires QuotaOf(o, r).Some?
    ensures var q := QuotaOf(o, r).value; var outcome := Decide(o, s, r).1;
            var before := Q.Total(s.totals, QuotaKey(q, r.at));
            outcome.Allowed? || outcome.stage.QuotaStage? ==>
              (outcome.Allowed? <==> Q.Decide(q, before, before + 1).allowed)
  {
    hide R.HitAll, R.Permits, Q.Decide, QuotaKey, FindOperation, C.DecideAccess;
  }

  /** A hard quota lets through exactly its limit's worth of what reaches it, and no more. */
  lemma {:induction false} HardQuotaAtGate(o: Options, requests: seq<GateRequest>, key: string, q: Q.Quota)
    requires q.overage.Hard?
    requires forall i :: 0 <= i < |requests| && BilledTo(o, requests[i], key) ==> QuotaOf(o, requests[i]) == Some(q)
    ensures CountOutcomes(o, requests, key, true) == Q.Min(q.limit, Q.Total(Run(o, requests).totals, key))
  {
    if requests != [] {
      var front, r := requests[..|requests| - 1], requests[|requests| - 1];
      hide Decide, QuotaKey, Authorize, Finish, Q.Crossed;
      HardQuotaAtGate(o, front, key, q);
      StepCounts(o, Run(o, front), r);
      BilledExactly(o, Run(o, front), r);
      QuotaOutcome(o, Run(o, front), r);
      if BilledTo(o, r, key) {
        assert BilledTo(o, requests[|requests| - 1], key);
        QuotaVerdict(o, Run(o, front), r);
      }
    }
  }

  /** Two calls are billed to one total exactly when their quotas have one id and they fall in one calendar window. */
  lemma SharedTotalExactly(q: Q.Quota, p: Q.Quota, a: int, b: int)
    requires q.period == p.period && q.resetDayOfMonth == p.resetDayOfMonth && 1 <= q.resetDayOfMonth <= 28
    requires P.Ordinary(q.period, q.resetDayOfMonth, Calendar.CivilOf(a)) && P.Ordinary(q.period, q.resetDayOfMonth, Calendar.CivilOf(b))
    requires var v, w := P.PeriodFor(q.period, q.resetDayOfMonth, a), P.PeriodFor(q.period, q.resetDayOfMonth, b);
             IsoText.FourDigits(Calendar.CivilOf(v.start).year) && IsoText.FourDigits(Calendar.CivilOf(w.start).year)
    ensures QuotaKey(q, a) == QuotaKey(p, b) <==>
              q.quotaId == p.quotaId
              && P.SameWindow(P.PeriodFor(q.period, q.resetDayOfMonth, a), P.PeriodFor(q.period, q.resetDayOfMonth, b))
  {
    hide P.PeriodFor, Calendar.CivilOf, P.Ordinary, P.SameWindow, P.NoColon, Q.StoreKey;
    P.PeriodKeyHasNoColon(q.period, q.resetDayOfMonth, a);
    P.PeriodKeyHasNoColon(q.period, q.resetDayOfMonth, b);
    P.KeyNamesWindow(q.period, q.resetDayOfMonth, a, b);
    Q.StoreKeyInjective(q.quotaId, P.PeriodFor(q.period, q.resetDayOfMonth, a).key, p.quotaId, P.PeriodFor(q.period, q.resetDayOfMonth, b).key);
  }

  /** A soft or billable quota turns nothing away: all that reaches it is allowed, and counted. */
  lemma {:induction false} SoftQuotaAtGate(o: Options, requests: seq<GateRequest>, key: string)
    requires forall i :: 0 <= i < |requests| && BilledTo(o, requests[i], key) ==> QuotaOf(o, requests[i]).value.overage in {Q.Soft, Q.Billable}
    ensures CountOutcomes(o, requests, key, false) == 0
    ensures CountOutcomes(o, requests, key, true) == Q.Total(Run(o, requests).totals, key)
  {
    QuotaConserved(o, requests, key);
    if requests != [] {
      var front, r := requests[..|requests| - 1], requests[|requests| - 1];
      hide Decide, QuotaKey, Authorize, Finish, Run;
      SoftQuotaAtGate(o, front, key);
      if BilledTo(o, r, key) {
        assert BilledTo(o, requests[|requests| - 1], key);
        QuotaVerdict(o, Run(o, front), r);
        Q.DecidedBy(QuotaOf(o, r).value, Q.Total(Run(o, front).totals, key), Q.Total(Run(o, front).totals, key) + 1);
        hide Q.Decide;
      }
    }
  }

  /** The rate requests of the calls that got past the first three stages. */
  function Authorized(o: Options, requests: seq<GateRequest>): seq<R.Request> {
    if requests == [] then []
    else
      var r, rest := requests[|requests| - 1], Authorized(o, requests[..|requests| - 1]);
      match Authorize(o, r)
      case Stop(_, _, _, _, _) => rest
      case Go(api, operation, consumer) => rest + [RateRequest(r, api, operation, consumer)]
  }

  lemma RateCounted(o: Options, s: State, r: GateRequest)
    requires o.rateLimits.Some?
    ensures var after := Decide(o, s, r).0;
            match Authorize(o, r)
            case Stop(_, _, _, _, _) => after.hits == s.hits
            case Go(api, operation, consumer) =>
              var rr := RateRequest(r, api, operation, consumer);
              var ls := R.ApplicableLimits(o.rateLimits.value, rr);
              && after.hits == R.HitAll(s.hits, ls, rr)
              && (Decide(o, s, r).1.Allowed? ==> R.Permits(s.hits, ls, rr))
  {
    hide R.HitAll, R.Permits, Q.Decide, QuotaKey, FindOperation, C.DecideAccess;
  }

  /** The rate counters see exactly the authorized requests, whatever happened to each afterwards. */
  lemma {:induction false} RateSeesAuthorized(o: Options, requests: seq<GateRequest>)
    requires o.rateLimits.Some?
    ensures Run(o, requests).hits == R.RunHits(o.rateLimits.value, Authorized(o, requests))
  {
    if requests != [] {
      var front, r := requests[..|requests| - 1], requests[|requests| - 1];
      RateSeesAuthorized(o, front);
      hide Decide, Finish, Authorize, R.HitAll, R.ApplicableLimits;
      StepCounts(o, Run(o, front), r);
      RateCounted(o, Run(o, front), r);
      if Authorize(o, r).Go? {
        var done := Authorized(o, front);
        assert Authorized(o, requests)[..|done|] == done;
      }
    }
  }

  /** Requests the gate allowed that counted on a limit's counter in `(start, start + window]`. */
  function AllowedInWindow(o: Options, l: R.Limit, key: string, requests: seq<GateRequest>, start: int): nat {
    if requests == [] then 0
    else
      var n := |requests| - 1;
      AllowedInWindow(o, l, key, requests[..n], start)
      + match Authorize(o, requests[n])
        case Stop(_, _, _, _, _) => 0
        case Go(api, operation, consumer) =>
          if OutcomeAt(o, requests, n).Allowed? && start < requests[n].at <= start + l.unit.Ms()
             && R.CountsOn(l, key, RateRequest(requests[n], api, operation, consumer)) then 1 else 0
  }

  lemma {:induction false} AllowedInWindowBound(o: Options, l: R.Limit, key: string, requests: seq<GateRequest>, start: int)
    requires o.rateLimits.Some?
    ensures AllowedInWindow(o, l, key, requests, start)
            <= R.AllowedWithin(o.rateLimits.value, l, key, Authorized(o, requests), start)
  {
    hide Decide, Finish, Authorize, Run, R.RunHits, R.HitAll, R.ApplicableLimits, R.Permits, R.CountsOn;
    if requests != [] {
      var front, r := requests[..|requests| - 1], requests[|requests| - 1];
      AllowedInWindowBound(o, l, key, front, start);
      RateSeesAuthorized(o, front);
      RateCounted(o, Run(o, front), r);
      match Authorize(o, r)
      case Stop(_, _, _, _, _) =>
        assert Authorized(o, requests) == Authorized(o, front);
      case Go(api, operation, consumer) =>
        var done, rr := Authorized(o, front), RateRequest(r, api, operation, consumer);
        assert Authorized(o, requests) == done + [rr];
        hide Authorized;
        AllowedWithinAppend(o.rateLimits.value, l, key, done, rr, start);
    }
  }

  lemma AllowedWithinAppend(limits: seq<R.Limit>, l: R.Limit, key: string, done: seq<R.Request>, r: R.Request, start: int)
    ensures R.AllowedWithin(limits, l, key, done + [r], start)
            == R.AllowedWithin(limits, l, key, done, start)
               + if R.CountsOn(l, key, r) && start < r.at <= start + l.unit.Ms()
                    && R.Permits(R.RunHits(limits, done), R.ApplicableLimits(limits, r), r) then 1 else 0
  {
    hide R.RunHits, R.ApplicableLimits, R.Permits, R.CountsOn;
    assert (done + [r])[..|done|] == done;
  }

  lemma {:induction false} AuthorizedInOrder(o: Options, requests: seq<GateRequest>)
    requires forall i, j :: 0 <= i < j < |requests| ==> requests[i].at <= requests[j].at
    ensures R.InOrder(Authorized(o, requests))
    ensures forall k :: 0 <= k < |Authorized(o, requests)| ==> exists i :: 0 <= i < |requests| && requests[i].at == Authorized(o, requests)[k].at
  {
    if requests != [] {
      var front, r := requests[..|requests| - 1], requests[|requests| - 1];
      AuthorizedInOrder(o, front);
      hide Authorize;
      var done, all := Authorized(o, front), Authorized(o, requests);
      forall k | 0 <= k < |all| ensures exists i :: 0 <= i < |requests| && requests[i].at == all[k].at {
        if k < |done| {
          var i :| 0 <= i < |front| && front[i].at == done[k].at;
          assert requests[i].at == all[k].at;
        } else {
          assert requests[|requests| - 1].at == all[k].at;
        }
      }
    }
  }

  /** Through the whole gate, a refusing limit lets at most its ceiling by in any window's length. */
  lemma WindowHoldsAtGate(o: Options, l: R.Limit, sample: R.Request, requests: seq<GateRequest>, start: int)
    requires o.rateLimits.Some? && R.KeysApart(o.rateLimits.value) && l in o.rateLimits.value && l.action.Refuse?
    requires forall i, j :: 0 <= i < j < |requests| ==> requests[i].at <= requests[j].at
    ensures AllowedInWindow(o, l, R.CounterKey(l, sample), requests, start) <= l.Ceiling()
  {
    AuthorizedInOrder(o, requests);
    AllowedInWindowBound(o, l, R.CounterKey(l, sample), requests, start);
    R.WindowNeverExceeded(o.rateLimits.value, l, sample, Authorized(o, requests), start);
  }

  lemma OutcomeOfPrefix(o: Options, requests: seq<GateRequest>, n: nat, i: nat)
    requires i < n <= |requests|
    ensures OutcomeAt(o, requests[..n], i) == OutcomeAt(o, requests, i)
  {
    assert requests[..n][..i] == requests[..i];
  }

  function RecordAt(o: Options, requests: seq<GateRequest>, i: nat): Record
    requires i < |requests|
  {
    RecordOf(o, requests[i], OutcomeAt(o, requests, i))
  }

  /** When every record fits, a run leaves one record per request, in order, each telling its outcome. */
  lemma {:induction false} OneRecordPerRequest(o: Options, requests: seq<GateRequest>)
    requires o.analytics && forall i :: 0 <= i < |requests| ==> Fits(RecordAt(o, requests, i))
    ensures |Run(o, requests).analytics| == |requests|
    ensures forall i :: 0 <= i < |requests| ==> Run(o, requests).analytics[i] == RecordAt(o, requests, i)
  {
    hide Decide, Fits, Finish, Authorize, OutcomeAt, RecordOf;
    if requests != [] {
      var n := |requests| - 1;
      var front, r := requests[..n], requests[n];
      forall i | 0 <= i < n ensures RecordAt(o, front, i) == RecordAt(o, requests, i) {
        OutcomeOfPrefix(o, requests, n, i);
      }
      hide RecordAt;
      assert forall i :: 0 <= i < n ==> Fits(RecordAt(o, front, i));
      OneRecordPerRequest(o, front);
      LastRecord(o, requests);
    }
  }

  lemma LastRecord(o: Options, requests: seq<GateRequest>)
    requires o.analytics && requests != [] && Fits(RecordAt(o, requests, |requests| - 1))
    ensures Run(o, requests).analytics == Run(o, requests[..|requests| - 1]).analytics + [RecordAt(o, requests, |requests| - 1)]
  {
    hide Decide, Fits, Authorize, RecordOf, Step;
    RecordedExactly(o, Run(o, requests[..|requests| - 1]), requests[|requests| - 1]);
  }
}
