/** What each operation on API keys answers and writes, in the fields of the records. */
module ApiKeyRecords {
  import opened Text
  import opened JsMap
  import opened IsoText
  import opened ApiKeys
  import IpAllowlist

  /** The unrevoked keys of an organization. */
  function ActiveKeys(s: Store, organizationId: string): set<string> {
    set id | id in s.records.vals && s.records.vals[id].organizationId == organizationId && s.records.vals[id].revokedAt == None
  }

  predicate NameBorne(s: Store, organizationId: string, name: string) {
    exists id :: id in s.records.vals && s.records.vals[id].organizationId == organizationId && s.records.vals[id].name == name
  }

  lemma ActiveKeysCounted(s: Store, organizationId: string)
    requires s.records.Valid()
    ensures CountActive(s, organizationId) == |ActiveKeys(s, organizationId)|
  {
    KeysWhereCount(s.records, ActiveIn(organizationId));
    assert ActiveKeys(s, organizationId) == KeySet(s.records, ActiveIn(organizationId));
    hide KeysWhere;
  }

  lemma NameBorneFound(s: Store, organizationId: string, name: string)
    requires s.records.Valid()
    ensures First(s.records.keys, s.records.vals, Named(organizationId, name)).Some? <==> NameBorne(s, organizationId, name)
  {
    hide First;
    if id :| id in s.records.vals && s.records.vals[id].organizationId == organizationId && s.records.vals[id].name == name {
      assert id in s.records.keys && Named(organizationId, name)(s.records.vals[id]);
    }
  }

  /** Why a creation is refused: the first of these that holds. */
  lemma CreateRefusedFor(c: Config, s: Store, k: NewKey, now: int)
    requires s.records.Valid()
    ensures CreateError(c, s, k, now)
            == if !c.validScopes(k.scopes) then Some(InvalidScopes)
               else if !c.validAllowlist(k.ipAllowlist) then Some(InvalidAllowlist)
               else if k.lifetimeSeconds.Some? && k.lifetimeSeconds.value > c.policy.maxLifetimeSeconds then Some(LifetimeTooLong)
               else if NameBorne(s, k.organizationId, k.name) then Some(NameTaken)
               else if |ActiveKeys(s, k.organizationId)| >= c.policy.maxKeysPerOrganization then Some(TooManyKeys)
               else None
  {
    ActiveKeysCounted(s, k.organizationId);
    NameBorneFound(s, k.organizationId, k.name);
    hide First, CountActive, ActiveKeys, NameBorne;
  }

  /**
   * What a creation writes: one record more, with the organization, name, scopes and addresses asked for,
   * to expire when asked, or without that when the policy must have it, and never used, revoked or rotated.
   */
  lemma CreatedRecord(c: Config, s: Store, k: NewKey, keyHash: string, now: int)
    requires Sound(s)
    ensures var t, id := CreateStep(c, s, k, keyHash, now), IdOf(s.counter + 1);
            if CreateError(c, s, k, now).Some? then t == s
            else
              var expiresAt := if k.lifetimeSeconds.Some? then Some(now + 1000 * k.lifetimeSeconds.value)
                               else if c.policy.requireExpiry then Some(now + 1000 * c.policy.maxLifetimeSeconds) else None;
              && id !in s.records.vals && t.records.keys == s.records.keys + [id] && t.counter == s.counter + 1
              && t.records.vals == s.records.vals[id := Record(id, k.organizationId, keyHash, k.name, k.scopes, k.ipAllowlist, expiresAt,
                                                               None, None, None, None, None, 0)]
  {
    NextIdIsNew(s);
    hide IdOf, First, CountActive;
  }

  /** A revocation marks one unrevoked key of its own organization, and nothing else. */
  lemma RevokedRecord(s: Store, id: string, organizationId: string, reason: string, now: int)
    requires s.records.Valid()
    ensures var t := RevokeStep(s, id, organizationId, reason, now);
            if id in s.records.vals && s.records.vals[id].organizationId == organizationId && s.records.vals[id].revokedAt == None then
              t.records.keys == s.records.keys && t.counter == s.counter
              && t.records.vals == s.records.vals[id := s.records.vals[id].(revokedAt := Some(now), revokedReason := Some(reason))]
            else t == s
  {
  }

  /** Why a rotation is refused. */
  lemma RotateRefusedFor(c: Config, s: Store, id: string, organizationId: string, now: int)
    ensures RotateError(c, s, id, organizationId, now)
            == if id !in s.records.vals || s.records.vals[id].organizationId != organizationId then Some(NotFound)
               else if s.records.vals[id].revokedAt != None then Some(KeyRevoked)
               else if s.records.vals[id].expiresAt.Some?
                       && s.records.vals[id].expiresAt.value - now >= 1000 * (c.policy.maxLifetimeSeconds + 1) then Some(LifetimeTooLong)
               else if s.records.vals[id].expiresAt.Some? && c.policy.maxLifetimeSeconds == 0 then Some(LifetimeTooLong)
               else None
  {
  }

  /** What a rotation issues: the same reach under a dated name, for what is left of the original, at least a second. */
  lemma ReplacementRecord(c: Config, was: Record, keyHash: string, now: int)
    requires ResolveExpiry(c.policy, RemainingSeconds(was.expiresAt, now), now).Some?
    ensures var left := if was.expiresAt.Some? then (was.expiresAt.value - now) / 1000 else 0;
            Replacement(c, was, keyHash, now)
            == Record("", was.organizationId, keyHash, was.name + " (rotated " + IsoDate(now)[..10] + ")", was.scopes, was.ipAllowlist,
                      if was.expiresAt.Some? then Some(now + 1000 * (if left > 1 then left else 1))
                      else if c.policy.requireExpiry then Some(now + 1000 * c.policy.maxLifetimeSeconds) else None,
                      None, None, Some(was.id), None, None, 0)
  {
    hide IsoDate;
  }

  /** What a presented key is told: the first of these that holds, of the first record under its hash. */
  lemma VerdictExactly(s: Store, k: Presented, now: int)
    requires s.records.Valid()
    ensures var v := Judge(s, k, now);
            if !k.wellFormed then v == Malformed
            else if !k.rightEnvironment then v == WrongEnvironment
            else if forall id :: id in s.records.vals ==> s.records.vals[id].keyHash != k.keyHash then v == Unknown
            else exists i :: FirstUnder(s, k.keyHash, i) && v == Judged(s.records.vals[s.records.keys[i]], k, now)
  {
    hide First, JudgeRecord, Judged;
    if k.wellFormed && k.rightEnvironment {
      if FindByHash(s, k.keyHash).Some? {
        FirstAtIndex(s.records.keys, s.records.vals, k.keyHash);
        var i :| 0 <= i < |s.records.keys| && s.records.vals[s.records.keys[i]] == FindByHash(s, k.keyHash).value
          && s.records.vals[s.records.keys[i]].keyHash == k.keyHash
          && forall j :: 0 <= j < i ==> s.records.vals[s.records.keys[j]].keyHash != k.keyHash;
        assert s.records.keys[i] in s.records.vals;
        assert FirstUnder(s, k.keyHash, i);
        JudgedAs(s.records.vals[s.records.keys[i]], k, now);
      } else {
        assert forall id :: id in s.records.vals ==> id in s.records.keys && !Hashed(k.keyHash)(s.records.vals[id]);
      }
    }
  }

  function Judged(r: Record, k: Presented, now: int): Verdict {
    if r.revokedAt != None then Revoked
    else if r.expiresAt.Some? && now >= r.expiresAt.value then Expired
    else if !IpAllowlist.AddressAllowed(k.ipAddress, r.ipAllowlist) then AddressDenied
    else if !k.organizationAvailable then NoOrganization
    else Verified(r)
  }

  lemma JudgedAs(r: Record, k: Presented, now: int)
    ensures JudgeRecord(r, k, now) == Judged(r, k, now)
    ensures Judged(r, k, now).Revoked? <==> r.revokedAt.Some?
    ensures Judged(r, k, now).Expired? <==> r.revokedAt.None? && r.expiresAt.Some? && r.expiresAt.value <= now
    ensures Judged(r, k, now).AddressDenied? <==>
              r.revokedAt.None? && (r.expiresAt.Some? ==> now < r.expiresAt.value) && !IpAllowlist.AddressAllowed(k.ipAddress, r.ipAllowlist)
    ensures Judged(r, k, now).NoOrganization? <==>
              r.revokedAt.None? && (r.expiresAt.Some? ==> now < r.expiresAt.value) && IpAllowlist.AddressAllowed(k.ipAddress, r.ipAllowlist)
              && !k.organizationAvailable
  {
    hide IpAllowlist.AddressAllowed;
  }

  /** A key that verifies is marked used, then and from there, once more; one that does not leaves no trace. */
  lemma UsedRecord(s: Store, k: Presented, now: int)
    requires Sound(s)
    ensures var t := VerifyStep(s, k, now);
            match Judge(s, k, now)
            case Verified(r) =>
              && r.id in s.records.vals && s.records.vals[r.id] == r && t.records.keys == s.records.keys && t.counter == s.counter
              && t.records.vals == s.records.vals[r.id := r.(lastUsedAt := Some(now), lastUsedIp := k.ipAddress, usageCount := r.usageCount + 1)]
            case _ => t == s
  {
    hide First, IpAllowlist.AddressAllowed;
  }

  // --- uses over a run --------------------------------------------------------

  /** The verifications of a run that accepted this key. */
  function Acceptances(c: Config, s: Store, ops: seq<Op>, id: string): nat
    requires s.records.Valid()
  {
    if ops == [] then 0
    else
      var front, op := ops[..|ops| - 1], ops[|ops| - 1];
      Acceptances(c, s, front, id)
      + if op.DoVerify? && Judge(RunFrom(c, s, front), op.presented, op.now).Verified?
           && Judge(RunFrom(c, s, front), op.presented, op.now).record.id == id then 1 else 0
  }

  lemma StepUses(c: Config, s: Store, op: Op, id: string)
    requires Sound(s) && id in s.records.vals
    ensures id in Step(c, s, op).records.vals
    ensures Step(c, s, op).records.vals[id].usageCount
            == s.records.vals[id].usageCount
               + if op.DoVerify? && Judge(s, op.presented, op.now).Verified? && Judge(s, op.presented, op.now).record.id == id then 1 else 0
  {
    hide Judge, CreateStep, RotateStep, RevokeStep, VerifyStep, Sound, IdOf, CreateError, RotateError, Replacement;
    match op
    case DoCreate(k, keyHash, now) => CreatedRecord(c, s, k, keyHash, now);
    case DoRevoke(key, organizationId, reason, now) => SoundIsValid(s); RevokedRecord(s, key, organizationId, reason, now);
    case DoRotate(key, organizationId, keyHash, now) => RotateUses(c, s, key, organizationId, keyHash, now, id);
    case DoVerify(presented, now) => UsedRecord(s, presented, now);
  }

  lemma RotateUses(c: Config, s: Store, key: string, organizationId: string, keyHash: string, now: int, id: string)
    requires Sound(s) && id in s.records.vals
    ensures id in RotateStep(c, s, key, organizationId, keyHash, now).records.vals
    ensures RotateStep(c, s, key, organizationId, keyHash, now).records.vals[id].usageCount == s.records.vals[id].usageCount
  {
    if RotateError(c, s, key, organizationId, now).None? {
      RotatedRecord(c, s, key, organizationId, keyHash, now);
      PermittedAt(c, s, key, organizationId, now);
      hide RotateStep, Sound, IdOf, Replacement, RotateError;
    }
  }

  /** A key's count of uses is the number of verifications that accepted it. */
  lemma {:induction false} UsesCounted(c: Config, s: Store, ops: seq<Op>, id: string)
    requires Sound(s) && id in s.records.vals
    ensures id in RunFrom(c, s, ops).records.vals
    ensures RunFrom(c, s, ops).records.vals[id].usageCount == s.records.vals[id].usageCount + Acceptances(c, s, ops, id)
  {
    SoundIsValid(s);
    if ops != [] {
      hide Sound, Step, Judge, Later;
      var front := ops[..|ops| - 1];
      UsesCounted(c, s, front, id);
      RunIsLater(c, s, front);
      StepUses(c, RunFrom(c, s, front), ops[|ops| - 1], id);
    }
  }
}
