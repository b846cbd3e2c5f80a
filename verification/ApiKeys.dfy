/** API keys: created, revoked, rotated with a grace period, and verified on every request. */
module ApiKeys {
  import opened Text
  import opened JsMap
  import opened IsoText
  import opened Calendar
  import IpAllowlist

  datatype Record = Record(
    id: string,
    organizationId: string,
    keyHash: string,
    name: string,
    scopes: seq<string>,
    ipAllowlist: seq<string>,
    expiresAt: Option<int>,
    revokedAt: Option<int>,
    revokedReason: Option<string>,
    rotatedFromId: Option<string>,
    lastUsedAt: Option<int>,
    lastUsedIp: Option<string>,
    usageCount: nat)

  type Records = JsMap<string, Record>

  /** What the store holds: the records in creation order, and how many it has ever created. */
  datatype Store = Store(records: Records, counter: nat)

  function IdOf(n: nat): string { "key_" + Numeral(n, Decimal) }

  // --- the store --------------------------------------------------------------

  /** The first record, in creation order, that satisfies a test. */
  function First(keys: seq<string>, vals: map<string, Record>, p: Record -> bool): (r: Option<Record>)
    requires forall k :: k in keys ==> k in vals
    ensures r.Some? ==> p(r.value) && exists k :: k in keys && vals[k] == r.value
    ensures r.None? ==> forall k :: k in keys ==> !p(vals[k])
  {
    if keys == [] then None
    else if p(vals[keys[0]]) then Some(vals[keys[0]])
    else First(keys[1..], vals, p)
  }

  function Hashed(keyHash: string): Record -> bool { (r: Record) => r.keyHash == keyHash }

  function Named(organizationId: string, name: string): Record -> bool {
    (r: Record) => r.organizationId == organizationId && r.name == name
  }

  function FindByHash(s: Store, keyHash: string): Option<Record>
    requires s.records.Valid()
  {
    First(s.records.keys, s.records.vals, Hashed(keyHash))
  }

  function FindById(s: Store, id: string, organizationId: string): Option<Record> {
    if s.records.Has(id) && s.records.vals[id].organizationId == organizationId then Some(s.records.vals[id]) else None
  }

  function CountActive(s: Store, organizationId: string): nat
    requires s.records.Valid()
  {
    |KeysWhere(s.records, ActiveIn(organizationId))|
  }

  function ActiveIn(organizationId: string): (string, Record) -> bool {
    (_, r: Record) => r.organizationId == organizationId && r.revokedAt.None?
  }

  function Created(s: Store, r: Record): (t: Store)
    requires s.records.Valid()
    ensures t.records.Valid()
  {
    Store(s.records.Set(IdOf(s.counter + 1), r.(id := IdOf(s.counter + 1))), s.counter + 1)
  }

  function Updated(s: Store, id: string, r: Record): (t: Store)
    requires s.records.Valid()
    ensures t.records.Valid()
  {
    if s.records.Has(id) then s.(records := s.records.Set(id, r)) else s
  }

  // --- the service ------------------------------------------------------------

  datatype Policy = Policy(maxLifetimeSeconds: nat, maxKeysPerOrganization: nat, requireExpiry: bool, rotationGraceSeconds: nat)

  /** The validators answer whether they would throw. */
  datatype Config = Config(
    policy: Policy,
    validScopes: seq<string> -> bool,
    validAllowlist: seq<string> -> bool)

  datatype Error = InvalidScopes | InvalidAllowlist | LifetimeTooLong | NameTaken | TooManyKeys | NotFound | KeyRevoked

  datatype Outcome = Ok(r: Record) | Failed(error: Error)

  datatype NewKey = NewKey(
    organizationId: string, name: string, scopes: seq<string>, ipAllowlist: seq<string>, lifetimeSeconds: Option<int>)

  /** None when the lifetime asked for is longer than policy permits; else the expiry, if there is one. */
  function ResolveExpiry(p: Policy, lifetimeSeconds: Option<int>, now: int): Option<Option<int>> {
    if lifetimeSeconds.None? then Some(if p.requireExpiry then Some(now + p.maxLifetimeSeconds * 1000) else None)
    else if lifetimeSeconds.value > p.maxLifetimeSeconds then None
    else Some(Some(now + lifetimeSeconds.value * 1000))
  }

  function Max(a: int, b: int): int { if a >= b then a else b }

  /** The whole seconds a replacement is given: what is left of the original, and at least one. */
  function RemainingSeconds(expiresAt: Option<int>, now: int): Option<int> {
    if expiresAt.None? then None else Some(Max(1, (expiresAt.value - now) / 1000))
  }

  /** When the original stops: at the end of the grace period, unless it was to stop before that. */
  function GraceExpiry(p: Policy, expiresAt: Option<int>, now: int): int {
    var graceEnds := now + p.rotationGraceSeconds * 1000;
    if expiresAt.Some? && expiresAt.value < graceEnds then expiresAt.value else graceEnds
  }

  function CreateError(c: Config, s: Store, k: NewKey, now: int): Option<Error>
    requires s.records.Valid()
  {
    if !c.validScopes(k.scopes) then Some(InvalidScopes)
    else if !c.validAllowlist(k.ipAllowlist) then Some(InvalidAllowlist)
    else if ResolveExpiry(c.policy, k.lifetimeSeconds, now).None? then Some(LifetimeTooLong)
    else if First(s.records.keys, s.records.vals, Named(k.organizationId, k.name)).Some? then Some(NameTaken)
    else if CountActive(s, k.organizationId) >= c.policy.maxKeysPerOrganization then Some(TooManyKeys)
    else None
  }

  function Fresh(k: NewKey, keyHash: string, expiresAt: Option<int>, rotatedFromId: Option<string>): Record {
    Record("", k.organizationId, keyHash, k.name, k.scopes, k.ipAllowlist, expiresAt, None, None, rotatedFromId, None, None, 0)
  }

  function CreateStep(c: Config, s: Store, k: NewKey, keyHash: string, now: int): (t: Store)
    requires s.records.Valid()
    ensures t.records.Valid()
  {
    if CreateError(c, s, k, now).Some? then s
    else Created(s, Fresh(k, keyHash, ResolveExpiry(c.policy, k.lifetimeSeconds, now).value, None))
  }

  function RevokeStep(s: Store, id: string, organizationId: string, reason: string, now: int): (t: Store)
    requires s.records.Valid()
    ensures t.records.Valid()
  {
    var found := FindById(s, id, organizationId);
    if found.None? || found.value.revokedAt.Some? then s
    else Updated(s, id, found.value.(revokedAt := Some(now), revokedReason := Some(reason)))
  }

  function RotateError(c: Config, s: Store, id: string, organizationId: string, now: int): Option<Error> {
    var found := FindById(s, id, organizationId);
    if found.None? then Some(NotFound)
    else if found.value.revokedAt.Some? then Some(KeyRevoked)
    else if ResolveExpiry(c.policy, RemainingSeconds(found.value.expiresAt, now), now).None? then Some(LifetimeTooLong)
    else None
  }

  /** The name a rotation gives: the day it was made on is appended. */
  function RotatedName(name: string, now: int): string { name + " (rotated " + IsoDate(now)[..10] + ")" }

  function Replacement(c: Config, was: Record, keyHash: string, now: int): Record
    requires ResolveExpiry(c.policy, RemainingSeconds(was.expiresAt, now), now).Some?
  {
    Fresh(NewKey(was.organizationId, RotatedName(was.name, now), was.scopes, was.ipAllowlist, None), keyHash,
          ResolveExpiry(c.policy, RemainingSeconds(was.expiresAt, now), now).value, Some(was.id))
  }

  function RotateStep(c: Config, s: Store, id: string, organizationId: string, keyHash: string, now: int): (t: Store)
    requires s.records.Valid()
    ensures t.records.Valid()
  {
    if RotateError(c, s, id, organizationId, now).Some? then s
    else
      var was := s.records.vals[id];
      var t := Created(s, Replacement(c, was, keyHash, now));
      // `update` patches the record as it stands, found again under the id that was read
      if !t.records.Has(was.id) then t
      else Updated(t, was.id, t.records.vals[was.id].(expiresAt := Some(GraceExpiry(c.policy, was.expiresAt, now))))
  }

  /** A key as presented: what its text alone tells, and the circumstances of the request. */
  datatype Presented = Presented(
    wellFormed: bool, rightEnvironment: bool, keyHash: string, ipAddress: Option<string>, organizationAvailable: bool)

  datatype Verdict = Malformed | WrongEnvironment | Unknown | Revoked | Expired | AddressDenied | NoOrganization | Verified(record: Record)

  function Judge(s: Store, k: Presented, now: int): Verdict
    requires s.records.Valid()
  {
    if !k.wellFormed then Malformed
    else if !k.rightEnvironment then WrongEnvironment
    else match FindByHash(s, k.keyHash)
      case None => Unknown
      case Some(r) => JudgeRecord(r, k, now)
  }

  function JudgeRecord(r: Record, k: Presented, now: int): Verdict {
    if r.revokedAt.Some? then Revoked
    else if r.expiresAt.Some? && r.expiresAt.value <= now then Expired
    else if !IpAllowlist.AddressAllowed(k.ipAddress, r.ipAllowlist) then AddressDenied
    else if !k.organizationAvailable then NoOrganization
    else Verified(r)
  }

  function VerifyStep(s: Store, k: Presented, now: int): (t: Store)
    requires s.records.Valid()
    ensures t.records.Valid()
  {
    match Judge(s, k, now)
    case Verified(r) => Used(s, r.id, now, k.ipAddress)
    case _ => s
  }

  function Used(s: Store, id: string, at: int, ipAddress: Option<string>): (t: Store)
    requires s.records.Valid()
    ensures t.records.Valid()
  {
    if !s.records.Has(id) then s
    else
      var r := s.records.vals[id];
      Updated(s, id, r.(lastUsedAt := Some(at), lastUsedIp := ipAddress, usageCount := r.usageCount + 1))
  }

  class InMemoryApiKeyStore {
    var records: Records
    var counter: nat

    constructor ()
      ensures Contents() == Store(Empty(), 0)
    {
      records := Empty();
      counter := 0;
    }

    ghost function Contents(): Store
      reads this
    {
      Store(records, counter)
    }

    method FirstWhere(p: Record -> bool) returns (r: Option<Record>)
      requires records.Valid()
      ensures r == First(records.keys, records.vals, p)
    {
      var keys := records.keys;
      for i := 0 to |keys|
        invariant First(keys, records.vals, p) == First(keys[i..], records.vals, p)
      {
        if p(records.vals[keys[i]]) { return Some(records.vals[keys[i]]); }
        assert keys[i..][1..] == keys[i + 1..];
      }
      return None;
    }

    method Create(r: Record) returns (created: Record)
      requires records.Valid()
      modifies this
      ensures Contents() == Created(old(Contents()), r) && created == r.(id := IdOf(counter))
    {
      counter := counter + 1;
      created := r.(id := IdOf(counter));
      records := records.Set(created.id, created);
    }

    method Update(id: string, r: Record)
      requires records.Valid()
      modifies this
      ensures Contents() == Updated(old(Contents()), id, r)
    {
      if records.Has(id) { records := records.Set(id, r); }
    }

    method RecordUse(id: string, at: int, ipAddress: Option<string>)
      requires records.Valid()
      modifies this
      ensures Contents() == Used(old(Contents()), id, at, ipAddress)
    {
      if records.Has(id) {
        var r := records.vals[id];
        records := records.Set(id, r.(lastUsedAt := Some(at), lastUsedIp := ipAddress, usageCount := r.usageCount + 1));
      }
    }
  }

  class ApiKeyService {
    const store: InMemoryApiKeyStore
    const config: Config

    constructor (store: InMemoryApiKeyStore, config: Config)
      ensures this.store == store && this.config == config
    {
      this.store := store;
      this.config := config;
    }

    method Create(k: NewKey, keyHash: string, now: int) returns (r: Outcome)
      requires store.records.Valid()
      modifies store
      ensures store.Contents() == CreateStep(config, old(store.Contents()), k, keyHash, now)
      ensures r.Failed? <==> CreateError(config, old(store.Contents()), k, now).Some?
      ensures r.Failed? ==> Some(r.error) == CreateError(config, old(store.Contents()), k, now)
      ensures r.Ok? ==> store.records.Has(r.r.id) && store.records.vals[r.r.id] == r.r
    {
      if !config.validScopes(k.scopes) { return Failed(InvalidScopes); }
      if !config.validAllowlist(k.ipAllowlist) { return Failed(InvalidAllowlist); }
      var expiresAt := ResolveExpiry(config.policy, k.lifetimeSeconds, now);
      if expiresAt.None? { return Failed(LifetimeTooLong); }
      var existing := store.FirstWhere(Named(k.organizationId, k.name));
      if existing.Some? { return Failed(NameTaken); }
      if CountActive(Store(store.records, store.counter), k.organizationId) >= config.policy.maxKeysPerOrganization {
        return Failed(TooManyKeys);
      }
      var created := store.Create(Fresh(k, keyHash, expiresAt.value, None));
      return Ok(created);
    }

    /** Revoking twice is the same as revoking once. */
    method Revoke(id: string, organizationId: string, reason: string, now: int) returns (r: Outcome)
      requires store.records.Valid()
      modifies store
      ensures store.Contents() == RevokeStep(old(store.Contents()), id, organizationId, reason, now)
      ensures r.Failed? <==> FindById(old(store.Contents()), id, organizationId).None?
      ensures r.Ok? ==> store.records.Has(id) && r.r == store.records.vals[id] && r.r.revokedAt.Some?
    {
      if !(store.records.Has(id) && store.records.vals[id].organizationId == organizationId) { return Failed(NotFound); }
      var record := store.records.vals[id];
      if record.revokedAt.Some? { return Ok(record); }
      var revoked := record.(revokedAt := Some(now), revokedReason := Some(reason));
      store.Update(id, revoked);
      return Ok(revoked);
    }

    method Rotate(id: string, organizationId: string, keyHash: string, now: int) returns (r: Outcome)
      requires store.records.Valid()
      modifies store
      ensures store.Contents() == RotateStep(config, old(store.Contents()), id, organizationId, keyHash, now)
      ensures r.Failed? <==> RotateError(config, old(store.Contents()), id, organizationId, now).Some?
    {
      if !(store.records.Has(id) && store.records.vals[id].organizationId == organizationId) { return Failed(NotFound); }
      var existing := store.records.vals[id];
      if existing.revokedAt.Some? { return Failed(KeyRevoked); }
      if ResolveExpiry(config.policy, RemainingSeconds(existing.expiresAt, now), now).None? { return Failed(LifetimeTooLong); }
      var replacement := store.Create(Replacement(config, existing, keyHash, now));
      if store.records.Has(existing.id) {
        store.Update(existing.id, store.records.vals[existing.id].(expiresAt := Some(GraceExpiry(config.policy, existing.expiresAt, now))));
      }
      return Ok(replacement);
    }

    method Verify(k: Presented, now: int) returns (v: Verdict)
      requires store.records.Valid()
      modifies store
      ensures v == Judge(old(store.Contents()), k, now)
      ensures store.Contents() == VerifyStep(old(store.Contents()), k, now)
    {
      if !k.wellFormed { return Malformed; }
      if !k.rightEnvironment { return WrongEnvironment; }
      var found := store.FirstWhere(Hashed(k.keyHash));
      if found.None? { return Unknown; }
      var r := found.value;
      if r.revokedAt.Some? { return Revoked; }
      if r.expiresAt.Some? && r.expiresAt.value <= now { return Expired; }
      if !IpAllowlist.AddressAllowed(k.ipAddress, r.ipAllowlist) { return AddressDenied; }
      if !k.organizationAvailable { return NoOrganization; }
      store.RecordUse(r.id, now, k.ipAddress);
      return Verified(r);
    }
  }

  // --- any run ----------------------------------------------------------------

  datatype Op =
    | DoCreate(k: NewKey, keyHash: string, now: int)
    | DoRevoke(id: string, organizationId: string, reason: string, now: int)
    | DoRotate(id: string, organizationId: string, keyHash: string, now: int)
    | DoVerify(presented: Presented, now: int)

  function Step(c: Config, s: Store, op: Op): (t: Store)
    requires s.records.Valid()
    ensures t.records.Valid()
  {
    match op
    case DoCreate(k, keyHash, now) => CreateStep(c, s, k, keyHash, now)
    case DoRevoke(id, organizationId, reason, now) => RevokeStep(s, id, organizationId, reason, now)
    case DoRotate(id, organizationId, keyHash, now) => RotateStep(c, s, id, organizationId, keyHash, now)
    case DoVerify(presented, now) => VerifyStep(s, presented, now)
  }

  /** From a given state, whatever the order and the instants of the operations. */
  function RunFrom(c: Config, s: Store, ops: seq<Op>): (t: Store)
    requires s.records.Valid()
    ensures t.records.Valid()
  {
    if ops == [] then s else Step(c, RunFrom(c, s, ops[..|ops| - 1]), ops[|ops| - 1])
  }

  /** Records sit under their own ids, all of which the counter has given out. */
  ghost predicate Sound(s: Store) {
    && s.records.Valid()
    && (forall k :: k in s.records.vals ==> s.records.vals[k].id == k && exists n: nat :: n <= s.counter && k == IdOf(n))
  }

  /** The same key at a later moment: its identity unchanged, its expiry no later, its revocation kept. */
  ghost predicate Aged(r: Record, t: Record) {
    && t == r.(expiresAt := t.expiresAt, revokedAt := t.revokedAt, revokedReason := t.revokedReason,
               lastUsedAt := t.lastUsedAt, lastUsedIp := t.lastUsedIp, usageCount := t.usageCount)
    && (r.revokedAt.Some? ==> t.revokedAt == r.revokedAt && t.revokedReason == r.revokedReason)
    && (r.expiresAt.Some? ==> t.expiresAt.Some? && t.expiresAt.value <= r.expiresAt.value)
    && t.usageCount >= r.usageCount
  }

  /** A later store: nothing lost or reordered, new records only after the old ones, and each old one aged. */
  ghost predicate Later(s: Store, t: Store) {
    && s.counter <= t.counter
    && |s.records.keys| <= |t.records.keys| && s.records.keys == t.records.keys[..|s.records.keys|]
    && forall k :: k in s.records.vals ==> k in t.records.vals && Aged(s.records.vals[k], t.records.vals[k])
  }

  lemma SoundIsValid(s: Store)
    requires Sound(s)
    ensures s.records.Valid()
  {
  }

  lemma NextIdIsNew(s: Store)
    requires Sound(s)
    ensures IdOf(s.counter + 1) !in s.records.vals
  {
    if IdOf(s.counter + 1) in s.records.vals {
      var n: nat :| n <= s.counter && IdOf(s.counter + 1) == IdOf(n);
      SameId(n, s.counter + 1);
    }
  }

  lemma SameId(m: nat, n: nat)
    requires IdOf(m) == IdOf(n)
    ensures m == n
  {
    assert IdOf(m)[4..] == Numeral(m, Decimal) && IdOf(n)[4..] == Numeral(n, Decimal);
    NumeralInjective(m, n, Decimal);
  }

  lemma CreatedIsLater(s: Store, r: Record)
    requires Sound(s)
    ensures Sound(Created(s, r)) && Later(s, Created(s, r)) && Created(s, r).records.vals == s.records.vals[IdOf(s.counter + 1) := r.(id := IdOf(s.counter + 1))]
  {
    NextIdIsNew(s);
    hide IdOf;
    var t := Created(s, r);
    forall k | k in t.records.vals ensures exists n: nat :: n <= t.counter && k == IdOf(n) {
      if k != IdOf(s.counter + 1) { var n: nat :| n <= s.counter && k == IdOf(n); }
    }
  }

  lemma UpdatedIsLater(s: Store, id: string, r: Record)
    requires Sound(s) && (id in s.records.vals ==> Aged(s.records.vals[id], r))
    ensures Sound(Updated(s, id, r)) && Later(s, Updated(s, id, r))
  {
  }

  lemma LaterThenLater(s: Store, t: Store, u: Store)
    requires Later(s, t) && Later(t, u)
    ensures Later(s, u)
  {
    assert u.records.keys[..|t.records.keys|][..|s.records.keys|] == u.records.keys[..|s.records.keys|];
    forall k | k in s.records.vals ensures Aged(s.records.vals[k], u.records.vals[k]) {
      AgedThenAged(s.records.vals[k], t.records.vals[k], u.records.vals[k]);
    }
  }

  lemma AgedThenAged(r: Record, s: Record, t: Record)
    requires Aged(r, s) && Aged(s, t)
    ensures Aged(r, t)
  {
  }

  lemma RotatedIsLater(c: Config, s: Store, id: string, organizationId: string, keyHash: string, now: int)
    requires Sound(s)
    ensures Sound(RotateStep(c, s, id, organizationId, keyHash, now)) && Later(s, RotateStep(c, s, id, organizationId, keyHash, now))
  {
    if RotateError(c, s, id, organizationId, now).None? {
      var was := s.records.vals[id];
      var t := Created(s, Replacement(c, was, keyHash, now));
      NextIdIsNew(s);
      CreatedIsLater(s, Replacement(c, was, keyHash, now));
      hide Created, Replacement;
      assert t.records.vals[id] == was;
      var aged := was.(expiresAt := Some(GraceExpiry(c.policy, was.expiresAt, now)));
      UpdatedIsLater(t, id, aged);
      LaterThenLater(s, t, Updated(t, id, aged));
    }
  }

  lemma StepIsLater(c: Config, s: Store, op: Op)
    requires Sound(s)
    ensures Sound(Step(c, s, op)) && Later(s, Step(c, s, op))
  {
    assert Later(s, s) by {
      hide Step;
      forall k | k in s.records.vals ensures Aged(s.records.vals[k], s.records.vals[k]) { }
    }
    assert s.records.Valid();
    hide Later, Sound, Created, RotateStep, Judge;
    match op
    case DoCreate(k, keyHash, now) =>
      if CreateError(c, s, k, now).None? {
        CreatedIsLater(s, Fresh(k, keyHash, ResolveExpiry(c.policy, k.lifetimeSeconds, now).value, None));
      }
    case DoRevoke(id, organizationId, reason, now) => RevokedIsLater(s, id, organizationId, reason, now);
    case DoRotate(id, organizationId, keyHash, now) => RotatedIsLater(c, s, id, organizationId, keyHash, now);
    case DoVerify(presented, now) =>
      if Judge(s, presented, now).Verified? { UsedIsLater(s, Judge(s, presented, now).record.id, now, presented.ipAddress); }
  }

  lemma RevokedIsLater(s: Store, id: string, organizationId: string, reason: string, now: int)
    requires Sound(s)
    ensures Sound(RevokeStep(s, id, organizationId, reason, now)) && Later(s, RevokeStep(s, id, organizationId, reason, now))
  {
    var found := FindById(s, id, organizationId);
    if found.Some? && found.value.revokedAt.None? {
      UpdatedIsLater(s, id, found.value.(revokedAt := Some(now), revokedReason := Some(reason)));
    }
  }

  lemma UsedIsLater(s: Store, id: string, at: int, ipAddress: Option<string>)
    requires Sound(s)
    ensures Sound(Used(s, id, at, ipAddress)) && Later(s, Used(s, id, at, ipAddress))
  {
    if s.records.Has(id) {
      var r := s.records.vals[id];
      UpdatedIsLater(s, id, r.(lastUsedAt := Some(at), lastUsedIp := ipAddress, usageCount := r.usageCount + 1));
    }
  }

  /** Along any run expiries only move earlier, revocations stay, and no record is lost or replaced. */
  lemma {:induction false} RunIsLater(c: Config, s: Store, ops: seq<Op>)
    requires Sound(s)
    ensures Sound(RunFrom(c, s, ops)) && Later(s, RunFrom(c, s, ops))
  {
    if ops != [] {
      hide Later, Sound, Step;
      RunIsLater(c, s, ops[..|ops| - 1]);
      var t := RunFrom(c, s, ops[..|ops| - 1]);
      StepIsLater(c, t, ops[|ops| - 1]);
      LaterThenLater(s, t, RunFrom(c, s, ops));
    }
  }

  // --- the ceiling on active keys ---------------------------------------------

  lemma {:induction false} MatchingAgrees(keys: seq<string>, v: map<string, Record>, w: map<string, Record>, p: (string, Record) -> bool)
    requires forall k :: k in keys ==> k in v && k in w && p(k, v[k]) == p(k, w[k])
    ensures Matching(keys, v, p) == Matching(keys, w, p)
  {
    if keys != [] { MatchingAgrees(keys[..|keys| - 1], v, w, p); }
  }

  lemma ActiveAfterCreated(s: Store, r: Record, organizationId: string)
    requires Sound(s) && r.revokedAt.None?
    ensures CountActive(Created(s, r), organizationId)
            == CountActive(s, organizationId) + if r.organizationId == organizationId then 1 else 0
  {
    NextIdIsNew(s);
    hide IdOf, Matching;
    var t, id := Created(s, r), IdOf(s.counter + 1);
    assert t.records.keys == s.records.keys + [id];
    MatchingAppend(s.records.keys, id, t.records.vals, ActiveIn(organizationId));
    MatchingAgrees(s.records.keys, s.records.vals, t.records.vals, ActiveIn(organizationId));
  }

  lemma ActiveAfterUpdated(s: Store, id: string, r: Record, organizationId: string)
    requires Sound(s) && id in s.records.vals
    requires r.organizationId == s.records.vals[id].organizationId && r.revokedAt == s.records.vals[id].revokedAt
    ensures CountActive(Updated(s, id, r), organizationId) == CountActive(s, organizationId)
  {
    hide Matching;
    MatchingAgrees(s.records.keys, s.records.vals, Updated(s, id, r).records.vals, ActiveIn(organizationId));
  }

  /** A key that `create` issues leaves its organization within the ceiling on active keys. */
  lemma CreateKeepsCeiling(c: Config, s: Store, k: NewKey, keyHash: string, now: int)
    requires Sound(s) && CreateError(c, s, k, now).None?
    ensures var active := CountActive(CreateStep(c, s, k, keyHash, now), k.organizationId);
            active == CountActive(s, k.organizationId) + 1 && active <= c.policy.maxKeysPerOrganization
  {
    hide Created, CountActive;
    ActiveAfterCreated(s, Fresh(k, keyHash, ResolveExpiry(c.policy, k.lifetimeSeconds, now).value, None), k.organizationId);
  }

  /** A rotation adds one whatever the ceiling: the original counts as active through its grace period and after. */
  lemma RotationPassesCeiling(c: Config, s: Store, id: string, organizationId: string, keyHash: string, now: int)
    requires Sound(s) && RotateError(c, s, id, organizationId, now).None?
    ensures CountActive(RotateStep(c, s, id, organizationId, keyHash, now), organizationId) == CountActive(s, organizationId) + 1
  {
    var was := s.records.vals[id];
    var t := Created(s, Replacement(c, was, keyHash, now));
    CreatedIsLater(s, Replacement(c, was, keyHash, now));
    NextIdIsNew(s);
    ActiveAfterCreated(s, Replacement(c, was, keyHash, now), organizationId);
    assert t.records.vals[id] == was;
    hide CountActive, Created, Replacement;
    ActiveAfterUpdated(t, id, was.(expiresAt := Some(GraceExpiry(c.policy, was.expiresAt, now))), organizationId);
  }

  // --- what that means for a presented key ------------------------------------

  /** The record a key finds is settled once and for all: later records do not hide it. */
  lemma {:induction false} FirstStays(keys: seq<string>, more: seq<string>, was: map<string, Record>, vals: map<string, Record>, keyHash: string)
    requires (forall k :: k in keys ==> k in was && k in vals && Aged(was[k], vals[k])) && forall k :: k in more ==> k in vals
    requires First(keys, was, Hashed(keyHash)).Some?
    ensures First(keys + more, vals, Hashed(keyHash)).Some?
    ensures Aged(First(keys, was, Hashed(keyHash)).value, First(keys + more, vals, Hashed(keyHash)).value)
    ensures exists k :: k in keys && was[k] == First(keys, was, Hashed(keyHash)).value && vals[k] == First(keys + more, vals, Hashed(keyHash)).value
  {
    assert (keys + more)[0] == keys[0];
    if !Hashed(keyHash)(was[keys[0]]) {
      assert (keys + more)[1..] == keys[1..] + more;
      FirstStays(keys[1..], more, was, vals, keyHash);
    }
  }

  lemma FoundStays(s: Store, t: Store, keyHash: string)
    requires s.records.Valid() && t.records.Valid() && Later(s, t) && FindByHash(s, keyHash).Some?
    ensures FindByHash(t, keyHash).Some? && Aged(FindByHash(s, keyHash).value, FindByHash(t, keyHash).value)
    ensures exists k :: k in s.records.vals && s.records.vals[k] == FindByHash(s, keyHash).value
                        && k in t.records.vals && t.records.vals[k] == FindByHash(t, keyHash).value
  {
    var more := t.records.keys[|s.records.keys|..];
    LaterKeys(s, t);
    assert forall k :: k in more ==> k in t.records.keys;
    hide Aged, First, Later;
    FirstStays(s.records.keys, more, s.records.vals, t.records.vals, keyHash);
  }

  lemma LaterKeys(s: Store, t: Store)
    requires s.records.Valid() && t.records.Valid() && Later(s, t)
    ensures |s.records.keys| <= |t.records.keys| && t.records.keys == s.records.keys + t.records.keys[|s.records.keys|..]
    ensures forall k :: k in s.records.keys ==>
              k in s.records.vals && k in t.records.vals && Aged(s.records.vals[k], t.records.vals[k])
  {
    hide Aged;
  }

  lemma JudgedLater(r: Record, t: Record, k: Presented, now: int, again: Presented, later: int)
    requires Aged(r, t) && now <= later && (JudgeRecord(r, k, now).Revoked? || JudgeRecord(r, k, now).Expired?)
    ensures JudgeRecord(t, again, later).Revoked? || JudgeRecord(t, again, later).Expired?
  {
    hide IpAllowlist.AddressAllowed;
  }

  /** Everything a presented key needs to be accepted; only the first record under its hash is looked at. */
  lemma VerifiedExactly(s: Store, k: Presented, now: int)
    requires s.records.Valid()
    ensures Judge(s, k, now).Verified? <==>
              && k.wellFormed && k.rightEnvironment && k.organizationAvailable
              && exists i :: FirstUnder(s, k.keyHash, i) &&
                   var r := s.records.vals[s.records.keys[i]];
                   && r.revokedAt.None? && (r.expiresAt.None? || now < r.expiresAt.value)
                   && IpAllowlist.AddressAllowed(k.ipAddress, r.ipAllowlist)
  {
    hide IpAllowlist.AddressAllowed;
    if FindByHash(s, k.keyHash).Some? { FirstAtIndex(s.records.keys, s.records.vals, k.keyHash); }
    hide First;
    forall i, j | FirstUnder(s, k.keyHash, i) && FirstUnder(s, k.keyHash, j) ensures i == j { }
    if FindByHash(s, k.keyHash).Some? {
      var i :| 0 <= i < |s.records.keys| && s.records.vals[s.records.keys[i]] == FindByHash(s, k.keyHash).value
        && s.records.vals[s.records.keys[i]].keyHash == k.keyHash
        && forall j :: 0 <= j < i ==> s.records.vals[s.records.keys[j]].keyHash != k.keyHash;
      assert FirstUnder(s, k.keyHash, i);
    }
  }

  ghost predicate FirstUnder(s: Store, keyHash: string, i: int)
    requires s.records.Valid()
  {
    && 0 <= i < |s.records.keys| && s.records.keys[i] in s.records.vals && s.records.vals[s.records.keys[i]].keyHash == keyHash
    && forall j :: 0 <= j < i ==> s.records.keys[j] in s.records.vals && s.records.vals[s.records.keys[j]].keyHash != keyHash
  }

  lemma {:induction false} FirstAtIndex(keys: seq<string>, vals: map<string, Record>, keyHash: string)
    requires forall k :: k in keys ==> k in vals
    requires First(keys, vals, Hashed(keyHash)).Some?
    ensures exists i :: 0 <= i < |keys| && vals[keys[i]] == First(keys, vals, Hashed(keyHash)).value && vals[keys[i]].keyHash == keyHash
              && forall j :: 0 <= j < i ==> vals[keys[j]].keyHash != keyHash
  {
    if vals[keys[0]].keyHash == keyHash {
      assert vals[keys[0]] == First(keys, vals, Hashed(keyHash)).value;
    } else {
      FirstAtIndex(keys[1..], vals, keyHash);
      var i :| 0 <= i < |keys[1..]| && vals[keys[1..][i]] == First(keys[1..], vals, Hashed(keyHash)).value && vals[keys[1..][i]].keyHash == keyHash
        && forall j :: 0 <= j < i ==> vals[keys[1..][j]].keyHash != keyHash;
      assert vals[keys[i + 1]] == First(keys, vals, Hashed(keyHash)).value;
      forall j | 0 <= j < i + 1 ensures vals[keys[j]].keyHash != keyHash {
        if j > 0 { assert keys[j] == keys[1..][j - 1]; }
      }
    }
  }

  /** Rejected as revoked or expired at one instant, a key never verifies at that instant or later. */
  lemma RejectedStaysRejected(c: Config, s: Store, ops: seq<Op>, k: Presented, now: int, again: Presented, later: int)
    requires Sound(s) && now <= later && again.keyHash == k.keyHash
    requires Judge(s, k, now).Revoked? || Judge(s, k, now).Expired?
    ensures !Judge(RunFrom(c, s, ops), again, later).Verified?
    ensures again.wellFormed && again.rightEnvironment ==>
              Judge(RunFrom(c, s, ops), again, later).Revoked? || Judge(RunFrom(c, s, ops), again, later).Expired?
  {
    RunIsLater(c, s, ops);
    var t := RunFrom(c, s, ops);
    hide FindByHash, RunFrom, JudgeRecord;
    FoundStays(s, t, k.keyHash);
    hide Later, Sound, Aged;
    JudgedLater(FindByHash(s, k.keyHash).value, FindByHash(t, k.keyHash).value, k, now, again, later);
  }

  /** The key of a record: the first to be found under its hash. */
  ghost predicate Owns(s: Store, id: string, keyHash: string)
    requires s.records.Valid()
  {
    id in s.records.vals && FindByHash(s, keyHash) == Some(s.records.vals[id]) && s.records.vals[id].id == id
  }

  lemma OwnerDecides(s: Store, id: string, k: Presented, now: int)
    requires s.records.Valid() && Owns(s, id, k.keyHash)
    ensures k.wellFormed && k.rightEnvironment ==> Judge(s, k, now) == JudgeRecord(s.records.vals[id], k, now)
    ensures !(k.wellFormed && k.rightEnvironment) ==> !Judge(s, k, now).Verified?
  {
    hide JudgeRecord, FindByHash;
  }

  lemma BadlyPresented(s: Store, k: Presented, now: int)
    requires s.records.Valid() && !(k.wellFormed && k.rightEnvironment)
    ensures !Judge(s, k, now).Verified?
  {
  }

  lemma AfterGrace(p: Policy, r: Record, now: int, k: Presented, later: int)
    requires later >= now + p.rotationGraceSeconds * 1000
    ensures var v := JudgeRecord(r.(expiresAt := Some(GraceExpiry(p, r.expiresAt, now))), k, later); v.Expired? || v.Revoked?
  {
    hide IpAllowlist.AddressAllowed;
  }

  lemma RotatedOriginal(c: Config, s: Store, id: string, organizationId: string, keyHash: string, now: int)
    requires Sound(s) && RotateError(c, s, id, organizationId, now).None?
    ensures var t, was := RotateStep(c, s, id, organizationId, keyHash, now), s.records.vals[id];
            id in t.records.vals && t.records.vals[id] == was.(expiresAt := Some(GraceExpiry(c.policy, was.expiresAt, now)))
  {
    hide RotateStep, GraceExpiry;
    RotatedRecord(c, s, id, organizationId, keyHash, now);
  }

  /** A rotated key stops by the end of its grace period, whatever happens next. */
  lemma RotatedStops(c: Config, s: Store, id: string, organizationId: string, keyHash: string, now: int,
                     ops: seq<Op>, k: Presented, later: int)
    requires Sound(s) && RotateError(c, s, id, organizationId, now).None? && Owns(s, id, k.keyHash)
    requires later >= now + c.policy.rotationGraceSeconds * 1000
    ensures !Judge(RunFrom(c, RotateStep(c, s, id, organizationId, keyHash, now), ops), k, later).Verified?
  {
    var t := RotateStep(c, s, id, organizationId, keyHash, now);
    RotatedIsLater(c, s, id, organizationId, keyHash, now);
    RotatedOriginal(c, s, id, organizationId, keyHash, now);
    hide RotateStep, RotateError, Judge, Later, RunFrom, FindByHash;
    StillOwns(s, t, id, k.keyHash);
    OwnerDecides(t, id, k, later);
    hide Owns, Sound;
    AfterGrace(c.policy, s.records.vals[id], now, k, later);
    hide GraceExpiry, JudgeRecord;
    if k.wellFormed && k.rightEnvironment {
      RejectedStaysRejected(c, t, ops, k, later, k, later);
    } else {
      BadlyPresented(RunFrom(c, t, ops), k, later);
    }
  }

  lemma StillOwns(s: Store, t: Store, id: string, keyHash: string)
    requires Sound(s) && Sound(t) && Later(s, t) && Owns(s, id, keyHash)
    ensures Owns(t, id, keyHash)
  {
    hide FindByHash;
    FoundStays(s, t, keyHash);
    var k :| k in s.records.vals && s.records.vals[k] == FindByHash(s, keyHash).value
      && k in t.records.vals && t.records.vals[k] == FindByHash(t, keyHash).value;
    assert k == id;
  }

  /** What rotation leaves: the original with only its expiry moved, and a replacement with the same reach. */
  lemma RotatedRecord(c: Config, s: Store, id: string, organizationId: string, keyHash: string, now: int)
    requires Sound(s) && RotateError(c, s, id, organizationId, now).None?
    ensures var t := RotateStep(c, s, id, organizationId, keyHash, now);
            var was, newId := s.records.vals[id], IdOf(s.counter + 1);
            && newId !in s.records.vals
            && t.records.vals == s.records.vals[newId := Replacement(c, was, keyHash, now).(id := newId)]
                                               [id := was.(expiresAt := Some(GraceExpiry(c.policy, was.expiresAt, now)))]
  {
    NextIdIsNew(s);
    CreatedIsLater(s, Replacement(c, s.records.vals[id], keyHash, now));
    hide IdOf, Replacement;
  }

  /** Until then it keeps working: nothing about it changes but when it stops. */
  lemma GraceKeepsWorking(c: Config, s: Store, id: string, organizationId: string, keyHash: string, now: int, k: Presented, at: int)
    requires Sound(s) && RotateError(c, s, id, organizationId, now).None? && Owns(s, id, k.keyHash)
    requires at < now + c.policy.rotationGraceSeconds * 1000
    ensures Judge(RotateStep(c, s, id, organizationId, keyHash, now), k, at).Verified? <==> Judge(s, k, at).Verified?
  {
    var t := RotateStep(c, s, id, organizationId, keyHash, now);
    RotatedIsLater(c, s, id, organizationId, keyHash, now);
    RotatedOriginal(c, s, id, organizationId, keyHash, now);
    hide RotateStep, RotateError, Judge, Later, FindByHash;
    StillOwns(s, t, id, k.keyHash);
    OwnerDecides(s, id, k, at);
    OwnerDecides(t, id, k, at);
    hide Owns, Sound;
    WithinGrace(c.policy, s.records.vals[id], now, k, at);
    hide GraceExpiry, JudgeRecord;
  }

  lemma WithinGrace(p: Policy, r: Record, now: int, k: Presented, at: int)
    requires at < now + p.rotationGraceSeconds * 1000
    ensures JudgeRecord(r.(expiresAt := Some(GraceExpiry(p, r.expiresAt, now))), k, at).Verified? <==> JudgeRecord(r, k, at).Verified?
  {
    hide IpAllowlist.AddressAllowed;
  }

  /**
   * The replacement is to expire no later than the original was, exactly when the original had a
   * whole second left. A key already expired is replaced by one that lives a second.
   */
  lemma ReplacementExpiry(c: Config, was: Record, keyHash: string, now: int)
    requires ResolveExpiry(c.policy, RemainingSeconds(was.expiresAt, now), now).Some? && was.expiresAt.Some?
    ensures var e := Replacement(c, was, keyHash, now).expiresAt;
            && e.Some? && now < e.value
            && (e.value <= was.expiresAt.value <==> was.expiresAt.value - now >= 1000)
            && (was.expiresAt.value - now < 1000 ==> e.value == now + 1000)
  {
  }

  // --- names ------------------------------------------------------------------

  /** Two rotations name their replacements alike exactly when they fall on one day, in years of four digits. */
  lemma RotatedNamesExactly(name: string, a: int, b: int)
    ensures DayOf(a) == DayOf(b) ==> RotatedName(name, a) == RotatedName(name, b)
    ensures FourDigits(CivilOf(a).year) && FourDigits(CivilOf(b).year) ==>
              (RotatedName(name, a) == RotatedName(name, b) <==> DayOf(a) == DayOf(b))
  {
    hide CivilOf, DateText, MonthStart, MonthLength;
    var c, d := CivilOf(a), CivilOf(b);
    if DayOf(a) == DayOf(b) { CivilAtMidnight(c, b); }
    if FourDigits(c.year) && FourDigits(d.year) && RotatedName(name, a) == RotatedName(name, b) {
      DayKeys(c, d);
      NameTells(name, IsoDate(a)[..10], IsoDate(b)[..10]);
    }
  }

  lemma NameTells(name: string, x: string, y: string)
    requires |x| == |y| && name + " (rotated " + x + ")" == name + " (rotated " + y + ")"
    ensures x == y
  {
    var n := |name + " (rotated "|;
    assert x == (name + " (rotated " + x + ")")[n..n + |x|] && y == (name + " (rotated " + y + ")")[n..n + |y|];
  }

  /** Two records of one organization, neither revoked. */
  predicate BothLive(s: Store, a: string, b: string, organizationId: string) {
    && a != b && a in s.records.vals && b in s.records.vals
    && s.records.vals[a].organizationId == organizationId == s.records.vals[b].organizationId
    && s.records.vals[a].revokedAt.None? && s.records.vals[b].revokedAt.None?
  }

  /** A key rotated twice: two replacements, neither revoked, under one name exactly when it was on one day. */
  lemma RotatedTwice(c: Config, s: Store, id: string, organizationId: string, one: string, first: int, two: string, second: int)
    requires Sound(s) && RotateError(c, s, id, organizationId, first).None?
    requires RotateError(c, RotateStep(c, s, id, organizationId, one, first), id, organizationId, second).None?
    ensures var t := RotateStep(c, RotateStep(c, s, id, organizationId, one, first), id, organizationId, two, second);
            var a, b := IdOf(s.counter + 1), IdOf(s.counter + 2);
            && BothLive(t, a, b, organizationId)
            && (DayOf(first) == DayOf(second) ==> t.records.vals[a].name == t.records.vals[b].name)
            && (FourDigits(CivilOf(first).year) && FourDigits(CivilOf(second).year) ==>
                  (t.records.vals[a].name == t.records.vals[b].name <==> DayOf(first) == DayOf(second)))
  {
    hide RotateStep, RotateError, IdOf, Replacement, RotatedName, CivilOf, Sound, Later, GraceExpiry, ResolveExpiry, RemainingSeconds, DayOf;
    SoundIsValid(s);
    PermittedAt(c, s, id, organizationId, first);
    var t, was := RotateStep(c, s, id, organizationId, one, first), s.records.vals[id];
    RotatedIsLater(c, s, id, organizationId, one, first);
    PermittedAt(c, t, id, organizationId, second);
    RotatedRecord(c, s, id, organizationId, one, first);
    RotatedRecord(c, t, id, organizationId, two, second);
    ReplacementIs(c, was, one, first);
    ReplacementIs(c, t.records.vals[id], two, second);
    RotatedNamesExactly(was.name, first, second);
    RotatedCounter(c, s, id, organizationId, one, first);
  }

  lemma ReplacementIs(c: Config, was: Record, keyHash: string, now: int)
    requires ResolveExpiry(c.policy, RemainingSeconds(was.expiresAt, now), now).Some?
    ensures var r := Replacement(c, was, keyHash, now);
            r.name == RotatedName(was.name, now) && r.organizationId == was.organizationId && r.revokedAt.None?
  {
    hide RotatedName;
  }

  lemma RotatedCounter(c: Config, s: Store, id: string, organizationId: string, keyHash: string, now: int)
    requires s.records.Valid() && RotateError(c, s, id, organizationId, now).None?
    ensures RotateStep(c, s, id, organizationId, keyHash, now).counter == s.counter + 1
  {
    hide Replacement, IdOf;
  }

  // An organization allowed one key, which it rotates past its expiry, or twice on one day.

  function OneKey(): Config { Config(Policy(3600, 1, true, 60), _ => true, _ => true) }

  function KeyFor(seconds: nat): NewKey { NewKey("org", "key", ["things:read"], [], Some(seconds)) }

  function Rotated(): seq<Op> { [DoCreate(KeyFor(1), "first", 0), DoRotate("key_1", "org", "second", 5_000)] }

  function RotatedAgain(): seq<Op> {
    [DoCreate(KeyFor(3600), "first", 0), DoRotate("key_1", "org", "second", 5_000), DoRotate("key_1", "org", "third", 10_000)]
  }

  function FirstRecord(seconds: nat): Record { Fresh(KeyFor(seconds), "first", Some(1_000 * seconds), None).(id := "key_1") }

  function FirstStore(seconds: nat): (s: Store)
    ensures s.records.Valid()
  {
    CreateStep(OneKey(), Store(Empty(), 0), KeyFor(seconds), "first", 0)
  }

  lemma FirstCreated(seconds: nat)
    requires seconds <= 3600
    ensures CreateError(OneKey(), Store(Empty(), 0), KeyFor(seconds), 0).None?
    ensures var s := FirstStore(seconds);
            && Sound(s) && s.counter == 1 && IdOf(1) == "key_1" && s.records.vals == map["key_1" := FirstRecord(seconds)]
  {
    assert IdOf(1) == "key_1" by { assert Numeral(1, Decimal) == "1"; }
    hide Matching;
    assert CountActive(Store(Empty(), 0), "org") == 0;
    StepIsLater(OneKey(), Store(Empty(), 0), DoCreate(KeyFor(seconds), "first", 0));
    hide IdOf;
  }

  lemma RotatedRuns()
    ensures var c := OneKey();
            && RunFrom(c, Store(Empty(), 0), Rotated()[..1]) == FirstStore(1)
            && RunFrom(c, Store(Empty(), 0), Rotated()) == RotateStep(c, FirstStore(1), "key_1", "org", "second", 5_000)
  {
    var ops := Rotated();
    assert ops[..1] == [ops[0]] && [ops[0]][..0] == [];
    hide CreateStep, RotateStep;
  }

  lemma RotateSucceeds(s: Store, seconds: nat, at: int)
    requires s.records.Valid() && 1 <= seconds <= 3600 && at >= 0 && "key_1" in s.records.vals
    requires s.records.vals["key_1"] == FirstRecord(seconds).(expiresAt := s.records.vals["key_1"].expiresAt)
    requires s.records.vals["key_1"].expiresAt.Some? && s.records.vals["key_1"].expiresAt.value <= 1_000 * seconds
    ensures RotateError(OneKey(), s, "key_1", "org", at).None?
  {
  }

  lemma SecondRotated()
    ensures RotateError(OneKey(), FirstStore(1), "key_1", "org", 5_000).None?
    ensures var t := RotateStep(OneKey(), FirstStore(1), "key_1", "org", "second", 5_000);
            IdOf(2) in t.records.vals && t.records.vals[IdOf(2)].expiresAt == Some(6_000)
  {
    hide *;
    FirstIs(1);
    var s := FirstStore(1);
    RotateSucceeds(s, 1, 5_000);
    RotatedRecord(OneKey(), s, "key_1", "org", "second", 5_000);
    PermittedAt(OneKey(), s, "key_1", "org", 5_000);
    ReplacementExpiry(OneKey(), FirstRecord(1), "second", 5_000);
    assert IdOf(2) != "key_1";
  }

  lemma FirstIs(seconds: nat)
    requires seconds <= 3600
    ensures var s := FirstStore(seconds);
            && Sound(s) && s.records.Valid() && s.counter == 1 && "key_1" in s.records.vals
            && s.records.vals["key_1"] == FirstRecord(seconds) && FirstRecord(seconds).expiresAt == Some(1_000 * seconds)
  {
    FirstCreated(seconds);
    hide FirstStore;
  }

  lemma PermittedAt(c: Config, s: Store, id: string, organizationId: string, now: int)
    requires RotateError(c, s, id, organizationId, now).None?
    ensures id in s.records.vals && s.records.vals[id].organizationId == organizationId && s.records.vals[id].revokedAt.None?
    ensures ResolveExpiry(c.policy, RemainingSeconds(s.records.vals[id].expiresAt, now), now).Some?
  {
  }

  /** At its ceiling and past its expiry, it gains a second active key, which outlives the first. */
  lemma RotatedPastCeilingAndExpiry()
    ensures var s, t := RunFrom(OneKey(), Store(Empty(), 0), Rotated()[..1]), RunFrom(OneKey(), Store(Empty(), 0), Rotated());
            && CountActive(s, "org") == 1 == OneKey().policy.maxKeysPerOrganization && CountActive(t, "org") == 2
            && IdOf(1) in s.records.vals && s.records.vals[IdOf(1)].expiresAt == Some(1_000)
            && IdOf(2) in t.records.vals && t.records.vals[IdOf(2)].expiresAt == Some(6_000)
  {
    EmptyStore();
    hide CreateStep, CreateError, CountActive, RotateStep, RotateError, RunFrom, Sound, IdOf;
    FirstCreated(1);
    RotatedRuns();
    SecondRotated();
    CreateKeepsCeiling(OneKey(), Store(Empty(), 0), KeyFor(1), "first", 0);
    RotationPassesCeiling(OneKey(), FirstStore(1), "key_1", "org", "second", 5_000);
  }

  lemma RunThenRotate(c: Config, s: Store, ops: seq<Op>, id: string, organizationId: string, keyHash: string, now: int)
    requires s.records.Valid()
    ensures RunFrom(c, s, ops + [DoRotate(id, organizationId, keyHash, now)]) == RotateStep(c, RunFrom(c, s, ops), id, organizationId, keyHash, now)
  {
    assert (ops + [DoRotate(id, organizationId, keyHash, now)])[..|ops|] == ops;
    hide RotateStep;
  }

  lemma RotatedAgainRuns()
    ensures RunFrom(OneKey(), Store(Empty(), 0), RotatedAgain())
            == RotateStep(OneKey(), RotateStep(OneKey(), FirstStore(3600), "key_1", "org", "second", 5_000), "key_1", "org", "third", 10_000)
  {
    var created := [DoCreate(KeyFor(3600), "first", 0)];
    assert created[..0] == [] && RunFrom(OneKey(), Store(Empty(), 0), created) == FirstStore(3600) by { hide CreateStep; }
    assert RotatedAgain() == created + [DoRotate("key_1", "org", "second", 5_000)] + [DoRotate("key_1", "org", "third", 10_000)];
    hide *;
    RunThenRotate(OneKey(), Store(Empty(), 0), created, "key_1", "org", "second", 5_000);
    RunThenRotate(OneKey(), Store(Empty(), 0), created + [DoRotate("key_1", "org", "second", 5_000)], "key_1", "org", "third", 10_000);
  }

  lemma RotatesTwice()
    ensures var c, s := OneKey(), FirstStore(3600);
            RotateError(c, s, "key_1", "org", 5_000).None? && RotateError(c, RotateStep(c, s, "key_1", "org", "second", 5_000), "key_1", "org", 10_000).None?
  {
    assert GraceExpiry(OneKey().policy, Some(3_600_000), 5_000) == 65_000;
    hide *;
    FirstIs(3600);
    var s := FirstStore(3600);
    RotateSucceeds(s, 3600, 5_000);
    RotatedOriginal(OneKey(), s, "key_1", "org", "second", 5_000);
    RotateSucceeds(RotateStep(OneKey(), s, "key_1", "org", "second", 5_000), 3600, 10_000);
  }

  /** Two live keys of one organization under one name. */
  lemma RotatedTwiceOneName()
    ensures var t := RunFrom(OneKey(), Store(Empty(), 0), RotatedAgain());
            BothLive(t, IdOf(2), IdOf(3), "org") && t.records.vals[IdOf(2)].name == t.records.vals[IdOf(3)].name
  {
    assert DayOf(5_000) == DayOf(10_000);
    hide *;
    FirstIs(3600);
    var s := FirstStore(3600);
    RotatesTwice();
    RotatedAgainRuns();
    RotatedTwice(OneKey(), s, "key_1", "org", "second", 5_000, "third", 10_000);
  }

  lemma EmptyStore()
    ensures Sound(Store(Empty(), 0)) && CountActive(Store(Empty(), 0), "org") == 0
  {
  }
}
