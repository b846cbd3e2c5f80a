/** Consumers, their entitlements, and the access decision. */
module Consumers {
  import opened Text
  import opened Catalog
  import opened Scopes

  datatype Status = Pending | Active | Suspended | Revoked

  /** Times are milliseconds since the epoch. */
  datatype Entitlement = Entitlement(
    apiId: string,
    majorVersion: nat,
    operationIds: seq<string>,
    scopes: seq<string>,
    expiresAt: Option<int>)

  datatype Consumer = Consumer(
    consumerId: string,
    organizationId: Option<string>,
    environment: Environment,
    entitlements: seq<Entitlement>,
    status: Status)

  datatype Code =
    | Allowed
    | ConsumerNotActive | WrongEnvironment | VersionRetired
    | NoEntitlement | EntitlementExpired | OperationNotEntitled | ScopeNotGranted

  datatype Decision = Decision(code: Code, entitlement: Option<Entitlement>)

  /** Entry `i` is for this API and major version, and none before it is. */
  ghost predicate FirstFor(entitlements: seq<Entitlement>, apiId: string, major: nat, i: int) {
    && 0 <= i < |entitlements| && entitlements[i].apiId == apiId && entitlements[i].majorVersion == major
    && forall j :: 0 <= j < i ==> entitlements[j].apiId != apiId || entitlements[j].majorVersion != major
  }

  /** The first entitlement to this API at this major version. */
  function FindEntitlement(entitlements: seq<Entitlement>, apiId: string, major: nat): (r: Option<Entitlement>)
    ensures r.Some? ==> exists i :: FirstFor(entitlements, apiId, major, i) && r.value == entitlements[i]
    ensures r.None? ==> forall e :: e in entitlements ==> e.apiId != apiId || e.majorVersion != major
  {
    if entitlements == [] then None
    else if entitlements[0].apiId == apiId && entitlements[0].majorVersion == major then Some(entitlements[0])
    else
      var rest := FindEntitlement(entitlements[1..], apiId, major);
      assert rest.Some? ==> exists i :: FirstFor(entitlements, apiId, major, i) && rest.value == entitlements[i] by {
        if rest.Some? {
          var i :| FirstFor(entitlements[1..], apiId, major, i) && rest.value == entitlements[1..][i];
          assert FirstFor(entitlements, apiId, major, i + 1);
        }
      }
      assert forall e :: e in entitlements ==> e == entitlements[0] || e in entitlements[1..];
      rest
  }

  function DecideAccess(consumer: Consumer, api: Definition, operation: Operation, at: int): Decision {
    if consumer.status != Active then Decision(ConsumerNotActive, None)
    else if consumer.environment != api.environment then Decision(WrongEnvironment, None)
    else if api.lifecycle == RETIRED then Decision(VersionRetired, None)
    else match FindEntitlement(consumer.entitlements, api.apiId, api.version.major)
      case None => Decision(NoEntitlement, None)
      case Some(e) =>
        if e.expiresAt.Some? && e.expiresAt.value <= at then Decision(EntitlementExpired, Some(e))
        else if |e.operationIds| > 0 && operation.operationId !in e.operationIds then
          Decision(OperationNotEntitled, Some(e))
        else if !ScopesSatisfyAll(e.scopes, ScopesOf(operation, api)) then Decision(ScopeNotGranted, Some(e))
        else Decision(Allowed, Some(e))
  }

  /** Everything an allowed call needs. Only the first entitlement for the API and major is looked at. */
  lemma AllowedExactly(consumer: Consumer, api: Definition, operation: Operation, at: int)
    ensures DecideAccess(consumer, api, operation, at).code == Allowed <==>
              && consumer.status == Active && consumer.environment == api.environment && api.lifecycle != RETIRED
              && exists i ::
                   && FirstFor(consumer.entitlements, api.apiId, api.version.major, i)
                   && var e := consumer.entitlements[i];
                      && (e.expiresAt.None? || at < e.expiresAt.value)
                      && (e.operationIds == [] || operation.operationId in e.operationIds)
                      && ScopesSatisfyAll(e.scopes, ScopesOf(operation, api))
  {
    var found := FindEntitlement(consumer.entitlements, api.apiId, api.version.major);
    if found.Some? {
      var i :| FirstFor(consumer.entitlements, api.apiId, api.version.major, i) && found.value == consumer.entitlements[i];
      forall j | FirstFor(consumer.entitlements, api.apiId, api.version.major, j) ensures j == i { }
    }
  }

  /** An entitlement runs out and stays out: a call allowed late was allowed at every earlier instant. */
  lemma AllowedEarlier(consumer: Consumer, api: Definition, operation: Operation, earlier: int, later: int)
    requires earlier <= later && DecideAccess(consumer, api, operation, later).code == Allowed
    ensures DecideAccess(consumer, api, operation, earlier) == DecideAccess(consumer, api, operation, later)
  {
  }
}
