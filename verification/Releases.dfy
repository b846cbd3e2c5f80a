/** What the version gate buys a consumer: a chain of sufficient releases keeps its calls working. */
module Releases {
  import opened Text
  import opened Catalog
  import opened Versioning
  import opened Scopes
  import opened Consumers

  function Max(x: nat, y: nat): nat { if x >= y then x else y }

  // --- sufficiency composes ---------------------------------------------------

  /** Bumps compose as the larger one. */
  lemma BumpComposes(a: Semver, b: Semver, c: Semver)
    requires BumpBetween(a, b) > 0 && BumpBetween(b, c) > 0
    ensures BumpBetween(a, c) == Max(BumpBetween(a, b), BumpBetween(b, c))
  {
  }

  lemma BreakingChangeHasAStep(c: Change, x: Definition, y: Definition, z: Definition)
    requires Differs(c, x, z) && CompatibilityOf(c.kind) == Breaking
    ensures HasChange(Breaking, x, y) || HasChange(Breaking, y, z)
  {
    var f, m := OperationsById(x.operations), OperationsById(y.operations);
    if c.kind == AuthenticationChanged {
      assert Differs(c, x, y) || Differs(c, y, z);
    } else if c.operationId.value in f && c.operationId.value !in m {
      assert Differs(Change(OperationRemoved, c.operationId), x, y);
    } else {
      assert Differs(c, x, y) || Differs(c, y, z);
    }
  }

  lemma AdditiveChangeHasAStep(c: Change, x: Definition, y: Definition, z: Definition)
    requires Differs(c, x, z) && CompatibilityOf(c.kind) == Additive
    ensures HasChange(Additive, x, y) || HasChange(Additive, y, z)
  {
    assert Differs(c, x, y) || Differs(c, y, z);
  }

  /** The bump a composite diff requires is at most the larger of what its two steps require. */
  lemma RequiredBumpComposes(x: Definition, y: Definition, z: Definition)
    ensures BumpRank(RequiredBump(x, z)) <= Max(BumpRank(RequiredBump(x, y)), BumpRank(RequiredBump(y, z)))
  {
    if HasChange(Breaking, x, z) {
      var c :| Differs(c, x, z) && CompatibilityOf(c.kind) == Breaking;
      BreakingChangeHasAStep(c, x, y, z);
    } else if HasChange(Additive, x, z) {
      var c :| Differs(c, x, z) && CompatibilityOf(c.kind) == Additive;
      AdditiveChangeHasAStep(c, x, y, z);
    }
  }

  /** Successive versions of one API, each a sufficient bump over the one before. */
  ghost predicate Chain(releases: seq<Definition>) {
    forall i :: 0 <= i < |releases| - 1 ==>
      releases[i].apiId == releases[i + 1].apiId && VersionSufficient(releases[i], releases[i + 1])
  }

  /** Any two versions of a chain, however far apart, are a sufficient bump. */
  lemma {:induction false} ChainSufficient(releases: seq<Definition>, i: nat, j: nat)
    requires Chain(releases) && i < j < |releases|
    ensures releases[i].apiId == releases[j].apiId
    ensures VersionSufficient(releases[i], releases[j])
    decreases j
  {
    hide RequiredBump, BumpBetween;
    if i + 1 < j {
      ChainSufficient(releases, i, j - 1);
      assert VersionSufficient(releases[j - 1], releases[j - 1 + 1]);
      RequiredBumpComposes(releases[i], releases[j - 1], releases[j]);
      BumpComposes(releases[i].version, releases[j - 1].version, releases[j].version);
    }
  }

  lemma NoBreakingOnOneMajor(from: Definition, to: Definition)
    requires VersionSufficient(from, to) && from.version.major == to.version.major
    ensures !HasChange(Breaking, from, to)
  {
  }

  /** However many releases lie between, on one major callers authenticate as they did. */
  lemma AuthenticationKept(releases: seq<Definition>, i: nat, j: nat)
    requires Chain(releases) && i < j < |releases|
    requires releases[i].version.major == releases[j].version.major
    ensures releases[j].authentication == releases[i].authentication
  {
    ChainSufficient(releases, i, j);
    NoBreakingOnOneMajor(releases[i], releases[j]);
    BreakingExactly(releases[i], releases[j]);
  }

  // --- access is kept ---------------------------------------------------------

  lemma NotBreaking(from: Definition, to: Definition, kind: ChangeKind, id: string)
    requires !HasChange(Breaking, from, to) && CompatibilityOf(kind) == Breaking
    ensures !Differs(Change(kind, Some(id)), from, to)
  {
    assert CompatibilityOf(Change(kind, Some(id)).kind) == Breaking;
  }

  lemma OperationStays(from: Definition, to: Definition, id: string)
    requires !HasChange(Breaking, from, to) && id in OperationsById(from.operations)
    ensures id in OperationsById(to.operations)
  {
    NotBreaking(from, to, OperationRemoved, id);
  }

  /** What "compatible" means for one operation id. */
  lemma CompatibleOperation(from: Definition, to: Definition, id: string)
    requires !HasChange(Breaking, from, to) && id in OperationsById(from.operations)
    ensures id in OperationsById(to.operations)
    ensures var before, after := OperationsById(from.operations)[id], OperationsById(to.operations)[id];
            && after.path == before.path && after.verb == before.verb
            && after.idempotent == before.idempotent
            && after.classification.Rank() >= before.classification.Rank()
            && forall s :: s in ScopesOf(after, to) ==> s in ScopesOf(before, from)
  {
    OperationStays(from, to, id);
    var before, after := OperationsById(from.operations)[id], OperationsById(to.operations)[id];
    NotBreaking(from, to, PathChanged, id);
    NotBreaking(from, to, VerbChanged, id);
    NotBreaking(from, to, ScopeAdded, id);
    NotBreaking(from, to, ClassificationLowered, id);
    NotBreaking(from, to, IdempotencyChanged, id);
    assert !NewlyRequires(ScopesOf(before, from), ScopesOf(after, to));
  }

  /**
   * A call allowed at one version is allowed at every later version of the same major for the same
   * operation id, exactly when that version is in the same environment and not retired.
   */
  lemma AccessKept(releases: seq<Definition>, i: nat, j: nat, consumer: Consumer, id: string, at: int)
    requires Chain(releases) && i < j < |releases|
    requires releases[i].version.major == releases[j].version.major
    requires id in OperationsById(releases[i].operations)
    requires DecideAccess(consumer, releases[i], OperationsById(releases[i].operations)[id], at).code == Allowed
    ensures id in OperationsById(releases[j].operations)
    ensures var was := DecideAccess(consumer, releases[i], OperationsById(releases[i].operations)[id], at);
            var now := DecideAccess(consumer, releases[j], OperationsById(releases[j].operations)[id], at);
            && (now.code == Allowed <==>
                  releases[j].environment == releases[i].environment && releases[j].lifecycle != RETIRED)
            && (now.code == Allowed ==> now.entitlement == was.entitlement)
  {
    var from, to := releases[i], releases[j];
    ChainSufficient(releases, i, j);
    NoBreakingOnOneMajor(from, to);
    CompatibleOperation(from, to, id);
    var before, after := OperationsById(from.operations)[id], OperationsById(to.operations)[id];
    var e := FindEntitlement(consumer.entitlements, from.apiId, from.version.major).value;
    SatisfyFewer(e.scopes, ScopesOf(before, from), ScopesOf(after, to));
  }

  // --- resolution is kept -----------------------------------------------------

  /** Some declaration of `id` answers the request. */
  ghost predicate AnsweredBy(api: Definition, id: string, verb: string, path: string) {
    exists p :: 0 <= p < |api.operations| && api.operations[p].operationId == id && Answers(api.operations[p], verb, path)
  }

  /** An operation of another id answers too, ahead of every declaration of `id` that does. */
  ghost predicate Overtaken(api: Definition, id: string, verb: string, path: string) {
    exists k :: 0 <= k < |api.operations| && api.operations[k].operationId != id && Answers(api.operations[k], verb, path)
      && forall q :: 0 <= q < k ==> !(api.operations[q].operationId == id && Answers(api.operations[q], verb, path))
  }

  /** The one declaration of `id` that a diff looks at answers the request. */
  predicate HeldAnswers(api: Definition, id: string, verb: string, path: string) {
    id in OperationsById(api.operations) && Answers(OperationsById(api.operations)[id], verb, path)
  }

  /** What resolving to an operation id comes down to, for any definition the schema accepts. */
  lemma ResolvesToExactly(api: Definition, id: string, verb: string, path: string)
    ensures (FindOperation(api, verb, path).Some? && FindOperation(api, verb, path).value.operationId == id)
            <==> !Escapes(path) && AnsweredBy(api, id, verb, path) && !Overtaken(api, id, verb, path)
  {
    hide Answers, Escapes;
    var i := FirstAnswer(api.operations, verb, path);
    if i < |api.operations| && api.operations[i].operationId != id {
      assert Overtaken(api, id, verb, path);
    }
  }

  /** A compatible release keeps the declaration a diff looks at answering what it answered. */
  lemma HeldStillAnswers(from: Definition, to: Definition, id: string, verb: string, path: string)
    requires !HasChange(Breaking, from, to) && HeldAnswers(from, id, verb, path)
    ensures HeldAnswers(to, id, verb, path) && AnsweredBy(to, id, verb, path)
  {
    CompatibleOperation(from, to, id);
    var p :| 0 <= p < |to.operations| && to.operations[p] == OperationsById(to.operations)[id];
  }

  /**
   * A request that resolved before a compatible release resolves to the same operation id after it
   * exactly when a declaration of that id still answers and none of another id, old or added, is
   * ahead of them all. It does still answer if the declaration the diff looked at answered.
   */
  lemma ResolutionKept(from: Definition, to: Definition, verb: string, path: string)
    requires !HasChange(Breaking, from, to) && FindOperation(from, verb, path).Some?
    ensures var id := FindOperation(from, verb, path).value.operationId;
            && ((FindOperation(to, verb, path).Some? && FindOperation(to, verb, path).value.operationId == id)
                <==> AnsweredBy(to, id, verb, path) && !Overtaken(to, id, verb, path))
            && (HeldAnswers(from, id, verb, path) ==>
                  AnsweredBy(to, id, verb, path) && FindOperation(to, verb, path).Some?)
  {
    var id := FindOperation(from, verb, path).value.operationId;
    ResolvesToExactly(to, id, verb, path);
    if HeldAnswers(from, id, verb, path) { HeldStillAnswers(from, to, id, verb, path); }
    hide Answers, Escapes, HeldAnswers, Overtaken;
  }

  /** A later version an entitlement to the major reaches. */
  ghost predicate CompatibleRelease(from: Definition, to: Definition) {
    from.apiId == to.apiId && VersionSufficient(from, to) && from.version.major == to.version.major
  }

  /** Only the declarations a diff looks at: the last of each id. */
  function Held(operations: seq<Operation>): (held: seq<Operation>) {
    var m := OperationMap(operations);
    seq(|m.keys|, i requires 0 <= i < |m.keys| => m.vals[m.keys[i]])
  }

  lemma HeldAt(operations: seq<Operation>)
    ensures UniqueIds(Held(operations))
    ensures forall o :: o in Held(operations) ==> o.operationId in OperationsById(operations) && OperationsById(operations)[o.operationId] == o
    ensures forall id :: id in OperationsById(operations) ==> OperationsById(operations)[id] in Held(operations)
  {
    var m, held := OperationMap(operations), Held(operations);
    hide OperationMap, OperationsById;
    assert forall i :: 0 <= i < |held| ==> m.keys[i] in m.vals && held[i].operationId == m.keys[i];
    forall id | id in m.vals ensures m.vals[id] in held {
      assert id in m.keys;
      var i :| 0 <= i < |m.keys| && m.keys[i] == id;
      assert held[i] == m.vals[id];
    }
  }

  lemma HeldIsTheMap(operations: seq<Operation>)
    ensures OperationsById(Held(operations)) == OperationsById(operations)
  {
    HeldAt(operations);
    var held := Held(operations);
    hide Held, OperationsById;
    forall o | o in held ensures o.operationId in OperationsById(held) && OperationsById(held)[o.operationId] == o {
      var i :| 0 <= i < |held| && held[i] == o;
      ById(held, i);
    }
    assert forall id :: id in OperationsById(held) ==> OperationsById(held)[id] in held;
    assert forall id :: id in OperationsById(operations) ==> OperationsById(operations)[id].operationId == id;
  }

  lemma SameMapNoChange(from: Definition, to: Definition)
    requires OperationsById(from.operations) == OperationsById(to.operations)
    requires from.authentication == to.authentication && from.scopes == to.scopes
    ensures forall c :: !Differs(c, from, to)
  {
  }

  function NextPatch(v: Semver): Semver { v.(patch := v.patch + 1) }

  /**
   * Which requests compatibility protects at all: those some diffed declaration answers. A request
   * answered only by an earlier declaration of a repeated id is lost by a patch with no changes.
   */
  lemma StillResolvesExactly(from: Definition, verb: string, path: string)
    ensures (forall to :: CompatibleRelease(from, to) ==> FindOperation(to, verb, path).Some?)
            <==> !Escapes(path) && exists id :: HeldAnswers(from, id, verb, path)
  {
    hide Escapes, HeldAnswers;
    if !Escapes(path) && exists id :: HeldAnswers(from, id, verb, path) {
      var id :| HeldAnswers(from, id, verb, path);
      forall to | CompatibleRelease(from, to) ensures FindOperation(to, verb, path).Some? {
        NoBreakingOnOneMajor(from, to);
        HeldStillAnswers(from, to, id, verb, path);
      }
    } else {
      HeldOnlyLoses(from, verb, path);
    }
  }

  /** The next patch, declaring only what the diff looks at. */
  function HeldOnly(from: Definition): Definition {
    from.(version := NextPatch(from.version), operations := Held(from.operations))
  }

  lemma HeldOnlyLoses(from: Definition, verb: string, path: string)
    requires Escapes(path) || forall id :: !HeldAnswers(from, id, verb, path)
    ensures CompatibleRelease(from, HeldOnly(from)) && FindOperation(HeldOnly(from), verb, path).None?
  {
    var to := HeldOnly(from);
    HeldIsTheMap(from.operations);
    HeldAt(from.operations);
    hide Held, OperationsById, Answers, Escapes;
    SameMapNoChange(from, to);
    var i := FirstAnswer(to.operations, verb, path);
    if i < |to.operations| {
      assert to.operations[i] in to.operations;
      assert HeldAnswers(from, to.operations[i].operationId, verb, path);
    }
  }

  /** The new definition declares the old operations in their old relative order. */
  ghost predicate KeepsOrder(from: Definition, to: Definition) {
    forall i, j, p, q ::
      && 0 <= i < j < |from.operations| && 0 <= p < |to.operations| && 0 <= q < |to.operations|
      && from.operations[i].operationId == to.operations[p].operationId
      && from.operations[j].operationId == to.operations[q].operationId
      ==> p < q
  }

  predicate IsAdded(operation: Operation, from: Definition) {
    forall i :: 0 <= i < |from.operations| ==> from.operations[i].operationId != operation.operationId
  }

  /** Some added operation is declared ahead of `id` and answers the request as well. */
  ghost predicate Captured(from: Definition, to: Definition, id: string, verb: string, path: string) {
    exists k, p :: 0 <= k < p < |to.operations|
      && to.operations[p].operationId == id
      && IsAdded(to.operations[k], from)
      && Answers(to.operations[k], verb, path)
  }

  lemma SamePlace(operations: seq<Operation>, p: nat, q: nat)
    requires UniqueIds(operations) && p < |operations| && q < |operations|
    requires operations[p].operationId == operations[q].operationId
    ensures p == q
  {
  }

  /** An old operation is in the new definition, once, and answers the same requests. */
  lemma StillAnswers(from: Definition, to: Definition, i: nat, verb: string, path: string) returns (p: nat)
    requires !HasChange(Breaking, from, to) && UniqueIds(from.operations) && UniqueIds(to.operations)
    requires i < |from.operations|
    ensures p < |to.operations| && to.operations[p].operationId == from.operations[i].operationId
    ensures Answers(to.operations[p], verb, path) <==> Answers(from.operations[i], verb, path)
  {
    var id := from.operations[i].operationId;
    ById(from.operations, i);
    CompatibleOperation(from, to, id);
    p :| 0 <= p < |to.operations| && to.operations[p] == OperationsById(to.operations)[id];
  }

  /** Whatever answers ahead of a kept operation's new place is an addition. */
  lemma AheadIsAdded(from: Definition, to: Definition, i: nat, p: nat, k: nat, verb: string, path: string)
    requires !HasChange(Breaking, from, to) && KeepsOrder(from, to)
    requires UniqueIds(from.operations) && UniqueIds(to.operations)
    requires i == FirstAnswer(from.operations, verb, path) < |from.operations|
    requires k < p < |to.operations| && to.operations[p].operationId == from.operations[i].operationId
    requires Answers(to.operations[k], verb, path)
    ensures IsAdded(to.operations[k], from)
  {
    if m :| 0 <= m < |from.operations| && from.operations[m].operationId == to.operations[k].operationId {
      var q := StillAnswers(from, to, m, verb, path);
      SamePlace(to.operations, q, k);
      if m == i { SamePlace(to.operations, p, k); }
    }
  }

  /** When no id repeats and the old operations keep their order, only an addition can overtake. */
  lemma OnlyAdditionsOvertake(from: Definition, to: Definition, verb: string, path: string)
    requires !HasChange(Breaking, from, to) && KeepsOrder(from, to)
    requires UniqueIds(from.operations) && UniqueIds(to.operations)
    requires FindOperation(from, verb, path).Some?
    ensures FindOperation(to, verb, path).Some?
    ensures var id := FindOperation(from, verb, path).value.operationId;
            Overtaken(to, id, verb, path) <==> Captured(from, to, id, verb, path)
  {
    var i := FirstAnswer(from.operations, verb, path);
    var id := from.operations[i].operationId;
    var p := StillAnswers(from, to, i, verb, path);
    hide Answers, Escapes;
    forall q | 0 <= q < |to.operations| && to.operations[q].operationId == id ensures q == p {
      SamePlace(to.operations, p, q);
    }
    forall k | 0 <= k < p && Answers(to.operations[k], verb, path) ensures IsAdded(to.operations[k], from) {
      AheadIsAdded(from, to, i, p, k, verb, path);
    }
    hide KeepsOrder, UniqueIds;
    if Captured(from, to, id, verb, path) {
      var k, q :| 0 <= k < q < |to.operations| && to.operations[q].operationId == id
        && IsAdded(to.operations[k], from) && Answers(to.operations[k], verb, path);
      assert to.operations[k].operationId != id;
    }
  }

  /** The new definition is the old list of operation ids with additions after it. */
  ghost predicate Appends(from: Definition, to: Definition) {
    && |from.operations| <= |to.operations|
    && forall i :: 0 <= i < |from.operations| ==> from.operations[i].operationId == to.operations[i].operationId
  }

  /** Every operation declared up to `n` is the one its id finds: nothing later repeats its id differently. */
  ghost predicate HeldThrough(api: Definition, n: nat) {
    forall k :: 0 <= k <= n && k < |api.operations| ==> OperationsById(api.operations)[api.operations[k].operationId] == api.operations[k]
  }

  lemma UniqueIdsHeld(api: Definition, n: nat)
    requires UniqueIds(api.operations)
    ensures HeldThrough(api, n)
  {
    forall k | 0 <= k <= n && k < |api.operations|
      ensures OperationsById(api.operations)[api.operations[k].operationId] == api.operations[k]
    {
      ById(api.operations, k);
    }
  }

  /**
   * A compatible release that only appends leaves a request with the operation it reached, as long as
   * no id declared up to there is repeated further down, in either definition.
   */
  lemma AppendingKeepsResolution(from: Definition, to: Definition, verb: string, path: string)
    requires !HasChange(Breaking, from, to) && Appends(from, to)
    requires FindOperation(from, verb, path).Some?
    requires HeldThrough(from, FirstAnswer(from.operations, verb, path)) && HeldThrough(to, FirstAnswer(from.operations, verb, path))
    ensures FindOperation(to, verb, path).Some?
    ensures FirstAnswer(to.operations, verb, path) == FirstAnswer(from.operations, verb, path)
    ensures FindOperation(to, verb, path).value.operationId == FindOperation(from, verb, path).value.operationId
  {
    var i := FirstAnswer(from.operations, verb, path);
    forall k | 0 <= k <= i ensures Answers(to.operations[k], verb, path) <==> Answers(from.operations[k], verb, path) {
      CompatibleOperation(from, to, from.operations[k].operationId);
    }
    hide Answers;
  }

  lemma {:induction false} ChainAppends(releases: seq<Definition>, i: nat, j: nat)
    requires i <= j < |releases|
    requires forall k :: 0 <= k < |releases| - 1 ==> Appends(releases[k], releases[k + 1])
    ensures Appends(releases[i], releases[j])
    decreases j
  {
    if i < j {
      ChainAppends(releases, i, j - 1);
      assert Appends(releases[j - 1], releases[j - 1 + 1]);
    }
  }

  /** The first two stages a request meets: resolve it, then decide access. */
  predicate CallAllowed(consumer: Consumer, api: Definition, verb: string, path: string, at: int) {
    match FindOperation(api, verb, path)
    case None => false
    case Some(operation) => DecideAccess(consumer, api, operation, at).code == Allowed
  }

  /** The request reaches, in this definition, the operation a diff looks at under its id. */
  predicate ReachesHeld(api: Definition, verb: string, path: string) {
    FindOperation(api, verb, path).Some?
    && var o := FindOperation(api, verb, path).value; OperationsById(api.operations)[o.operationId] == o
  }

  /** The request reaches an operation in both definitions, and under the same id. */
  predicate SameReached(from: Definition, to: Definition, verb: string, path: string) {
    && FindOperation(from, verb, path).Some? && FindOperation(to, verb, path).Some?
    && FindOperation(to, verb, path).value.operationId == FindOperation(from, verb, path).value.operationId
  }

  /** What the declaration a request reaches asks of a credential. */
  function AskedScopes(api: Definition, verb: string, path: string): seq<string>
    requires FindOperation(api, verb, path).Some?
  {
    ScopesOf(FindOperation(api, verb, path).value, api)
  }

  /**
   * A call that was allowed and still reaches its operation id is allowed exactly in the same
   * environment, at a version not retired, if the entitlement grants what the declaration reached asks.
   */
  lemma AllowedAtReached(from: Definition, to: Definition, consumer: Consumer, verb: string, path: string, at: int)
    requires from.apiId == to.apiId && from.version.major == to.version.major
    requires CallAllowed(consumer, from, verb, path, at) && SameReached(from, to, verb, path)
    ensures var e := FindEntitlement(consumer.entitlements, from.apiId, from.version.major);
            && e.Some?
            && (CallAllowed(consumer, to, verb, path, at) <==>
                  && to.environment == from.environment && to.lifecycle != RETIRED
                  && ScopesSatisfyAll(e.value.scopes, AskedScopes(to, verb, path)))
  {
    hide FindOperation, ScopesSatisfyAll;
  }

  /**
   * What an entitlement to a major version is worth: along a chain of sufficient releases, a call that
   * worked still resolves, if the diffs look at the operation it reached; it reaches the same one
   * exactly when a declaration of its id answers and none of another id overtakes it; and it is then
   * allowed exactly in the same environment, not retired, with the scopes asked by then.
   */
  lemma CallKeptExactly(releases: seq<Definition>, i: nat, j: nat, consumer: Consumer, verb: string, path: string, at: int)
    requires Chain(releases) && i < j < |releases|
    requires releases[i].version.major == releases[j].version.major
    requires CallAllowed(consumer, releases[i], verb, path, at)
    ensures var from, to := releases[i], releases[j]; var id := FindOperation(from, verb, path).value.operationId;
            var e := FindEntitlement(consumer.entitlements, from.apiId, from.version.major);
            && e.Some?
            && (ReachesHeld(from, verb, path) ==> FindOperation(to, verb, path).Some?)
            && (SameReached(from, to, verb, path) <==> AnsweredBy(to, id, verb, path) && !Overtaken(to, id, verb, path))
            && (SameReached(from, to, verb, path) ==>
                  (CallAllowed(consumer, to, verb, path, at) <==>
                     && to.environment == from.environment && to.lifecycle != RETIRED
                     && ScopesSatisfyAll(e.value.scopes, AskedScopes(to, verb, path))))
  {
    var from, to := releases[i], releases[j];
    ChainSufficient(releases, i, j);
    NoBreakingOnOneMajor(from, to);
    ResolutionKept(from, to, verb, path);
    var id := FindOperation(from, verb, path).value.operationId;
    assert ReachesHeld(from, verb, path) ==> HeldAnswers(from, id, verb, path);
    if SameReached(from, to, verb, path) { AllowedAtReached(from, to, consumer, verb, path, at); }
    hide Answers, Escapes, HeldAnswers, Overtaken, ScopesSatisfyAll, AskedScopes;
    var operation := FindOperation(from, verb, path).value;
    assert FindEntitlement(consumer.entitlements, from.apiId, from.version.major).Some?;
  }

  /** No entitlement is without a scope; the schema refuses one that is. */
  ghost predicate Scoped(consumer: Consumer) { forall e :: e in consumer.entitlements ==> e.scopes != [] }

  /** A scope that does not cover the one given, and covers nothing but itself. */
  function Aside(scope: string): string { if scope == "reports:read" then "ledger:read" else "reports:read" }

  /** The least that satisfies what was asked; where nothing was, a scope that is of no use for what is asked now. */
  function LeastHolding(asked: seq<string>, now: seq<string>): (held: seq<string>)
    ensures held != []
  {
    if asked != [] then Weakest(asked) else [if now == [] then "reports:read" else Aside(now[0])]
  }

  lemma ReadCoversItself(resource: string, scope: string)
    requires ':' !in resource && Covers(resource + ":" + "read", scope)
    ensures scope == resource + ":" + "read"
  {
    PartsOf(resource, "read");
    assert ':' in resource + ":" + "read";
    assert "read"[0] == 'r' && "write"[0] == 'w';
    hide Split;
  }

  lemma ReadScopes()
    ensures "ledger" + ":" + "read" == "ledger:read" && "reports" + ":" + "read" == "reports:read"
    ensures ':' !in "ledger" && ':' !in "reports" && "ledger:read" != "reports:read"
  {
    assert "ledger:read"[0] == 'l' && "reports:read"[0] == 'r';
  }

  lemma AsideIsNoUse(scope: string)
    ensures !Covers(Aside(scope), scope)
  {
    ReadScopes();
    hide Covers;
    if Covers(Aside(scope), scope) {
      ReadCoversItself(if scope == "reports:read" then "ledger" else "reports", scope);
    }
  }

  /** The least holding satisfies what was asked, and of what is asked now only what the weakest one does. */
  lemma LeastHoldingDecides(asked: seq<string>, now: seq<string>)
    ensures ScopesSatisfyAll(LeastHolding(asked, now), asked)
    ensures ScopesSatisfyAll(LeastHolding(asked, now), now) <==> ScopesSatisfyAll(Weakest(asked), now)
  {
    WeakestSatisfies(asked);
    hide Covers;
    if asked == [] && now != [] {
      AsideIsNoUse(now[0]);
      assert !ScopeSatisfies([Aside(now[0])], now[0]) && !ScopeSatisfies([], now[0]);
    }
  }

  /** A consumer with nothing to spare: entitled to this major, with this much. */
  function Minimal(api: Definition, held: seq<string>): Consumer {
    Consumer("minimal", None, api.environment, [Entitlement(api.apiId, api.version.major, [], held, None)], Active)
  }

  lemma MinimalAllowed(api: Definition, held: seq<string>, verb: string, path: string, at: int)
    requires FindOperation(api, verb, path).Some? && api.lifecycle != RETIRED
    requires ScopesSatisfyAll(held, AskedScopes(api, verb, path))
    ensures CallAllowed(Minimal(api, held), api, verb, path, at)
  {
    hide FindOperation, ScopesSatisfyAll;
  }

  /** Every consumer whose entitlements hold a scope keeps the call. */
  ghost predicate KeepsEveryCaller(from: Definition, to: Definition, verb: string, path: string) {
    forall consumer, at :: Scoped(consumer) && CallAllowed(consumer, from, verb, path, at) ==> CallAllowed(consumer, to, verb, path, at)
  }

  /**
   * For all consumers at once: between two versions of a major at which a request reaches one operation
   * id, every call that was allowed still is exactly when the environment is the same, the later
   * version is not retired, and the weakest holding of the scopes asked before satisfies those asked now.
   */
  lemma EveryCallKeptExactly(from: Definition, to: Definition, verb: string, path: string)
    requires from.apiId == to.apiId && from.version.major == to.version.major && from.lifecycle != RETIRED
    requires SameReached(from, to, verb, path)
    ensures KeepsEveryCaller(from, to, verb, path)
            <==> to.environment == from.environment && to.lifecycle != RETIRED
                 && ScopesSatisfyAll(Weakest(AskedScopes(from, verb, path)), AskedScopes(to, verb, path))
  {
    var before, now := AskedScopes(from, verb, path), AskedScopes(to, verb, path);
    var held := LeastHolding(before, now);
    var minimal := Minimal(from, held);
    LeastHoldingDecides(before, now);
    MinimalAllowed(from, held, verb, path, 0);
    AllowedAtReached(from, to, minimal, verb, path, 0);
    assert Scoped(minimal) && FindEntitlement(minimal.entitlements, from.apiId, from.version.major).value.scopes == held;
    if to.environment == from.environment && to.lifecycle != RETIRED && ScopesSatisfyAll(Weakest(before), now) {
      forall consumer, at | CallAllowed(consumer, from, verb, path, at) ensures CallAllowed(consumer, to, verb, path, at) {
        AllowedAtReached(from, to, consumer, verb, path, at);
        GrantedBefore(from, consumer, verb, path, at);
        var e := FindEntitlement(consumer.entitlements, from.apiId, from.version.major).value;
        hide CallAllowed, ScopesSatisfyAll, AskedScopes, Weakest;
        SatisfyThroughWeakest(e.scopes, before, now);
      }
    }
    hide CallAllowed, ScopesSatisfyAll, AskedScopes, Weakest, SameReached, Minimal, LeastHolding;
  }

  lemma GrantedBefore(api: Definition, consumer: Consumer, verb: string, path: string, at: int)
    requires CallAllowed(consumer, api, verb, path, at)
    ensures var e := FindEntitlement(consumer.entitlements, api.apiId, api.version.major);
            e.Some? && ScopesSatisfyAll(e.value.scopes, AskedScopes(api, verb, path))
  {
    hide FindOperation, ScopesSatisfyAll;
  }

  /**
   * The promise itself: when releases append their additions and ids are not repeated, a call that
   * worked keeps working, on the same operation, at every later version of that major that is in its
   * environment and not retired.
   */
  lemma CallsKeepWorking(releases: seq<Definition>, i: nat, j: nat, consumer: Consumer, verb: string, path: string, at: int)
    requires Chain(releases) && i < j < |releases|
    requires forall k :: 0 <= k < |releases| - 1 ==> Appends(releases[k], releases[k + 1])
    requires releases[i].version.major == releases[j].version.major
    requires CallAllowed(consumer, releases[i], verb, path, at)
    requires HeldThrough(releases[i], FirstAnswer(releases[i].operations, verb, path))
    requires HeldThrough(releases[j], FirstAnswer(releases[i].operations, verb, path))
    ensures FindOperation(releases[j], verb, path).Some?
    ensures FindOperation(releases[j], verb, path).value.operationId
            == FindOperation(releases[i], verb, path).value.operationId
    ensures CallAllowed(consumer, releases[j], verb, path, at) <==>
              releases[j].environment == releases[i].environment && releases[j].lifecycle != RETIRED
  {
    var from, to := releases[i], releases[j];
    ChainSufficient(releases, i, j);
    NoBreakingOnOneMajor(from, to);
    ChainAppends(releases, i, j);
    AppendingKeepsResolution(from, to, verb, path);
    hide Answers, Escapes, OperationsById;
    AccessKept(releases, i, j, consumer, FindOperation(from, verb, path).value.operationId, at);
  }

  function GetMerchant(): Operation { Operation("getMerchant", "GET", "/:id", [], PUBLIC, true, false) }

  function GetWallet(): Operation { Operation("getWallet", "GET", "/:key", [], PUBLIC, true, false) }

  function OneOperation(): Definition {
    Definition("merchants", Semver(1, 0, 0), Staging, PUBLISHED, ApiKey, [], [GetMerchant()])
  }

  function AddedFirst(): Definition {
    OneOperation().(version := Semver(1, 1, 0), operations := [GetWallet(), GetMerchant()])
  }

  /** An addition declared first captures a request that used to reach another operation, in a minor release. */
  lemma AddedFirstCaptures()
    ensures VersionSufficient(OneOperation(), AddedFirst()) && KeepsOrder(OneOperation(), AddedFirst())
    ensures UniqueIds(OneOperation().operations) && UniqueIds(AddedFirst().operations)
    ensures FindOperation(OneOperation(), "GET", "/m") == Some(GetMerchant())
    ensures FindOperation(AddedFirst(), "GET", "/m") == Some(GetWallet())
  {
    BothAnswer();
    AddedFirstIsMinor();
    FirstOfTwo(AddedFirst(), GetWallet(), GetMerchant(), "GET", "/m");
    FirstOfOne(OneOperation(), GetMerchant(), "GET", "/m");
    NewcomerKeepsOrder(OneOperation(), AddedFirst(), GetWallet(), GetMerchant());
    hide Answers, Escapes, OperationsById, HasChange, FindOperation, GetMerchant, GetWallet, KeepsOrder, UniqueIds;
  }

  lemma NewcomerKeepsOrder(from: Definition, to: Definition, a: Operation, b: Operation)
    requires from.operations == [b] && to.operations == [a, b]
    ensures a.operationId == GetWallet().operationId && b.operationId == GetMerchant().operationId ==>
              KeepsOrder(from, to) && UniqueIds(from.operations) && UniqueIds(to.operations)
  {
    NamesDiffer();
    hide GetWallet, GetMerchant;
  }

  lemma FirstOfOne(api: Definition, a: Operation, verb: string, path: string)
    requires api.operations == [a] && Answers(a, verb, path) && !Escapes(path)
    ensures FindOperation(api, verb, path) == Some(a)
  {
    hide Answers, Escapes;
  }

  /** The parameters of both operations match anything, so each answers `/m`. */
  lemma BothAnswer()
    ensures Answers(GetMerchant(), "GET", "/m") && Answers(GetWallet(), "GET", "/m") && !Escapes("/m")
  {
    hide Segments, RequestSegments, Escapes;
    OneSegment(":id");
    OneSegment(":key");
    OneSegmentRequest("m");
    assert "/" + ":id" == "/:id" && "/" + ":key" == "/:key" && "/" + "m" == "/m";
  }

  function InOrder(): Definition { OneOperation().(operations := [GetMerchant(), GetWallet()]) }

  function Swapped(): Definition {
    OneOperation().(version := Semver(1, 0, 1), operations := [GetWallet(), GetMerchant()])
  }

  /** So does an old operation moved ahead, in a patch the diff reports no change for. */
  lemma SwappedTakesOver()
    ensures VersionSufficient(InOrder(), Swapped()) && forall c :: !Differs(c, InOrder(), Swapped())
    ensures UniqueIds(InOrder().operations) && UniqueIds(Swapped().operations)
    ensures FindOperation(InOrder(), "GET", "/m") == Some(GetMerchant())
    ensures FindOperation(Swapped(), "GET", "/m") == Some(GetWallet())
  {
    BothAnswer();
    NamesDiffer();
    FirstOfTwo(InOrder(), GetMerchant(), GetWallet(), "GET", "/m");
    FirstOfTwo(Swapped(), GetWallet(), GetMerchant(), "GET", "/m");
    SwappedById(GetMerchant(), GetWallet());
    TwoUnique(GetMerchant(), GetWallet());
    TwoUnique(GetWallet(), GetMerchant());
    hide OperationsById, Answers, Escapes, FindOperation, GetMerchant, GetWallet, UniqueIds;
    NoChangePatch(InOrder(), Swapped());
    hide Differs, VersionSufficient;
  }

  lemma TwoUnique(a: Operation, b: Operation)
    requires a.operationId != b.operationId
    ensures UniqueIds([a, b])
  {
  }

  lemma NamesDiffer()
    ensures GetMerchant().operationId != GetWallet().operationId
  {
    assert GetMerchant().operationId[3] == 'M' && GetWallet().operationId[3] == 'W';
  }

  lemma FirstOfTwo(api: Definition, a: Operation, b: Operation, verb: string, path: string)
    requires api.operations == [a, b] && Answers(a, verb, path) && !Escapes(path)
    ensures FindOperation(api, verb, path) == Some(a)
  {
    hide Answers, Escapes;
  }

  lemma SwappedById(a: Operation, b: Operation)
    requires a.operationId != b.operationId
    ensures OperationsById([a, b]) == OperationsById([b, a])
  {
    TwoById(a, b);
    TwoById(b, a);
    hide OperationsById;
  }

  /** Two definitions with one operation map, one patch apart: sufficient, and nothing to report. */
  lemma NoChangePatch(from: Definition, to: Definition)
    requires OperationsById(from.operations) == OperationsById(to.operations)
    requires from.authentication == to.authentication && from.scopes == to.scopes && to.version == NextPatch(from.version)
    ensures VersionSufficient(from, to) && forall c :: !Differs(c, from, to)
  {
    SameMapNoChange(from, to);
    hide Differs;
  }

  lemma TwoById(a: Operation, b: Operation)
    ensures OperationsById([a, b]) == map[a.operationId := a][b.operationId := b]
  {
    assert [a, b][..1] == [a] && [a][..0] == [];
    assert OperationsById([a]) == map[a.operationId := a];
  }

  function GetThing(path: string, scopes: seq<string>): Operation { Operation("getThing", "GET", path, scopes, PUBLIC, true, false) }

  /** Two routes under one operation id, which the schema accepts: it refuses only a repeated method and path. */
  function RepeatedId(): Definition { OneOperation().(operations := [GetThing("/", []), GetThing("/b", [])]) }

  function FirstDropped(): Definition { OneOperation().(version := Semver(1, 0, 1), operations := [GetThing("/b", [])]) }

  /** A repeated id hides its earlier route from the diff, and a patch with no changes loses it. */
  lemma RepeatedIdLoses()
    ensures VersionSufficient(RepeatedId(), FirstDropped()) && forall c :: !Differs(c, RepeatedId(), FirstDropped())
    ensures FindOperation(RepeatedId(), "GET", "/") == Some(GetThing("/", []))
    ensures FindOperation(FirstDropped(), "GET", "/") == None
  {
    RootAndSegment();
    TwoById(GetThing("/", []), GetThing("/b", []));
    assert [GetThing("/b", [])][..0] == [];
    assert OperationsById(FirstDropped().operations) == map["getThing" := GetThing("/b", [])];
    hide OperationsById, Answers, Escapes;
    NoChangePatch(RepeatedId(), FirstDropped());
    hide Differs, VersionSufficient;
  }

  function FirstGuarded(): Definition {
    OneOperation().(version := Semver(1, 0, 1), operations := [GetThing("/", ["things:read"]), GetThing("/b", [])])
  }

  lemma AskingLosesCaller(from: Definition, to: Definition, verb: string, path: string)
    requires from.apiId == to.apiId && from.version.major == to.version.major && from.lifecycle != RETIRED
    requires SameReached(from, to, verb, path) && AskedScopes(from, verb, path) == [] && AskedScopes(to, verb, path) != []
    ensures !KeepsEveryCaller(from, to, verb, path)
  {
    assert !ScopeSatisfies([], AskedScopes(to, verb, path)[0]);
    EveryCallKeptExactly(from, to, verb, path);
    hide CallAllowed, KeepsEveryCaller;
  }

  /** Nor does the diff see the hidden route ask for a scope it did not ask for. */
  lemma RepeatedIdTightens()
    ensures VersionSufficient(RepeatedId(), FirstGuarded()) && forall c :: !Differs(c, RepeatedId(), FirstGuarded())
    ensures FindOperation(RepeatedId(), "GET", "/") == Some(GetThing("/", []))
    ensures FindOperation(FirstGuarded(), "GET", "/") == Some(GetThing("/", ["things:read"]))
    ensures !KeepsEveryCaller(RepeatedId(), FirstGuarded(), "GET", "/")
  {
    RootAndSegment();
    FirstOfTwo(RepeatedId(), GetThing("/", []), GetThing("/b", []), "GET", "/");
    FirstOfTwo(FirstGuarded(), GetThing("/", ["things:read"]), GetThing("/b", []), "GET", "/");
    TwoById(GetThing("/", []), GetThing("/b", []));
    TwoById(GetThing("/", ["things:read"]), GetThing("/b", []));
    hide Answers, Escapes, OperationsById, FindOperation;
    assert OperationsById(RepeatedId().operations) == OperationsById(FirstGuarded().operations);
    NoChangePatch(RepeatedId(), FirstGuarded());
    hide Differs, VersionSufficient;
    AskingLosesCaller(RepeatedId(), FirstGuarded(), "GET", "/");
  }

  function OneThing(): Definition { OneOperation().(operations := [GetThing("/b", [])]) }

  function HiddenAhead(): Definition {
    OneOperation().(version := Semver(1, 0, 1), operations := [GetThing("/:x", ["things:read"]), GetThing("/b", [])])
  }

  /** And it need not have been repeated before: the new one hides a guarded route ahead of the one it shows. */
  lemma HiddenAheadTightens()
    ensures UniqueIds(OneThing().operations)
    ensures VersionSufficient(OneThing(), HiddenAhead()) && forall c :: !Differs(c, OneThing(), HiddenAhead())
    ensures FindOperation(OneThing(), "GET", "/b") == Some(GetThing("/b", []))
    ensures FindOperation(HiddenAhead(), "GET", "/b") == Some(GetThing("/:x", ["things:read"]))
    ensures !KeepsEveryCaller(OneThing(), HiddenAhead(), "GET", "/b")
  {
    SegmentAnswers();
    FirstOfOne(OneThing(), GetThing("/b", []), "GET", "/b");
    FirstOfTwo(HiddenAhead(), GetThing("/:x", ["things:read"]), GetThing("/b", []), "GET", "/b");
    HiddenAheadSame();
    hide Answers, Escapes, OperationsById, FindOperation, Differs, VersionSufficient;
    AskingLosesCaller(OneThing(), HiddenAhead(), "GET", "/b");
  }

  lemma HiddenAheadSame()
    ensures VersionSufficient(OneThing(), HiddenAhead()) && forall c :: !Differs(c, OneThing(), HiddenAhead())
  {
    TwoById(GetThing("/:x", ["things:read"]), GetThing("/b", []));
    OneById(GetThing("/b", []));
    hide OperationsById;
    assert OperationsById(OneThing().operations) == OperationsById(HiddenAhead().operations);
    NoChangePatch(OneThing(), HiddenAhead());
    hide Differs, VersionSufficient;
  }

  lemma OneById(a: Operation)
    ensures OperationsById([a]) == map[a.operationId := a]
  {
    assert [a][..0] == [];
  }

  lemma SegmentAnswers()
    ensures Answers(GetThing("/b", []), "GET", "/b") && Answers(GetThing("/:x", ["things:read"]), "GET", "/b") && !Escapes("/b")
  {
    hide Segments, RequestSegments, Escapes;
    OneSegment(":x");
    OneSegment("b");
    OneSegmentRequest("b");
    assert "/" + ":x" == "/:x" && "/" + "b" == "/b";
  }

  lemma RootAndSegment()
    ensures Answers(GetThing("/", []), "GET", "/") && !Answers(GetThing("/b", []), "GET", "/") && !Escapes("/")
    ensures Answers(GetThing("/", ["things:read"]), "GET", "/")
  {
    hide Segments, RequestSegments, Escapes;
    OneSegment("b");
    assert "/" + "b" == "/b";
    RootPath();
  }

  lemma AddedFirstIsMinor()
    ensures !HasChange(Breaking, OneOperation(), AddedFirst())
  {
    assert GetMerchant().operationId[3] == 'M' && GetWallet().operationId[3] == 'W';
    var from, to := OneOperation(), AddedFirst();
    assert from.operations[..0] == [] && to.operations[..1] == [GetWallet()] && to.operations[..1][..0] == [];
    assert OperationsById(from.operations) == map[GetMerchant().operationId := GetMerchant()];
    assert OperationsById(to.operations)[GetMerchant().operationId] == GetMerchant();
    hide OperationsById;
  }

  lemma OneSegment(segment: string)
    requires segment != "" && '/' !in segment
    ensures Segments("/" + segment) == [segment]
  {
    SplitAtFirst("", segment, '/');
    SplitAtFirst(segment, [], '/');
    assert "" + ['/'] + segment == "/" + segment;
    assert NonEmpty(["", segment]) == NonEmpty(["", segment][1..]);
    assert NonEmpty([segment]) == [segment] + NonEmpty([segment][1..]);
  }

  lemma OneSegmentRequest(segment: string)
    requires segment != "" && '/' !in segment && '?' !in segment && segment != "." && segment != ".."
    ensures RequestSegments("/" + segment) == [segment] && !Escapes("/" + segment)
  {
    SplitAtFirst("/" + segment, [], '?');
    OneSegment(segment);
  }
}
