/** The AI answer cache: tenant-scoped keys, a bounded store, and what a hit may return. */
module AiCaches {
  import opened Text
  import opened JsMap

  datatype Kind = Completion | Embedding | Prompt {
    function Name(): string {
      match this
      case Completion => "completion"
      case Embedding => "embedding"
      case Prompt => "prompt"
    }
  }

  datatype Scalar = Str(s: string) | Num(n: real) | Bool(b: bool) | Null

  /** A request's own key; an absent prompt version or discriminator map is none or empty. */
  datatype KeyInput = KeyInput(
    organizationId: Option<string>,
    kind: Kind,
    modelId: string,
    cacheKey: string,
    promptVersion: Option<string>,
    discriminators: map<string, Scalar>)

  /** What is hashed: the JSON text is a faithful rendering of these fields, order aside. */
  datatype Material = Material(
    organization: string,
    kind: Kind,
    modelId: string,
    cacheKey: string,
    promptVersion: Option<string>,
    discriminators: map<string, Scalar>)

  datatype Entry = Entry(
    key: string,
    organizationId: Option<string>,
    value: string,
    savedCostCents: nat,
    savedTokens: nat,
    expiresAt: int,
    hits: nat)

  datatype Policy = Policy(enabled: bool, ttlSeconds: int, maxValueBytes: nat, skipWhenPiiDetected: bool)

  /** The digest, the policy and the store's bound: fixed for the life of a cache. */
  datatype Config = Config(sha256: Material -> string, policy: Policy, maxEntries: int)

  // --- keys -------------------------------------------------------------------

  function OrganizationText(org: Option<string>): string { if org.Some? then org.value else "platform" }

  function MaterialOf(input: KeyInput): Material {
    Material(OrganizationText(input.organizationId), input.kind, input.modelId, input.cacheKey,
             input.promptVersion, input.discriminators)
  }

  function OrganizationPrefix(org: Option<string>): string { "ai:" + OrganizationText(org) + ":" }

  function KindPrefix(org: Option<string>, kind: Kind): string { OrganizationPrefix(org) + kind.Name() + ":" }

  function BuildCacheKey(sha256: Material -> string, input: KeyInput): string {
    KindPrefix(input.organizationId, input.kind) + sha256(MaterialOf(input))
  }

  /** Hex digests of one length that never collide. */
  ghost predicate Digest(sha256: Material -> string) {
    && (forall m :: |sha256(m)| == 64)
    && (forall m, n :: sha256(m) == sha256(n) ==> m == n)
  }

  /**
   * A key gives back everything the answer depends on. What it cannot tell apart is the platform
   * itself and a tenant whose id is the word "platform".
   */
  lemma KeyDeterminesInput(sha256: Material -> string, a: KeyInput, b: KeyInput)
    requires Digest(sha256)
    ensures BuildCacheKey(sha256, a) == BuildCacheKey(sha256, b) <==>
              OrganizationText(a.organizationId) == OrganizationText(b.organizationId)
              && a.(organizationId := b.organizationId) == b
  {
    var x, y := BuildCacheKey(sha256, a), BuildCacheKey(sha256, b);
    assert x[|x| - 64..] == sha256(MaterialOf(a)) && y[|y| - 64..] == sha256(MaterialOf(b));
  }

  // --- the bounded store ------------------------------------------------------

  type Entries = JsMap<string, Entry>

  lemma PlatformSharesKeys(sha256: Material -> string, input: KeyInput)
    ensures BuildCacheKey(sha256, input.(organizationId := None)) == BuildCacheKey(sha256, input.(organizationId := Some("platform")))
  {
  }

  /** `set`: a new key in a full store pushes out the oldest one. */
  function StorePut(entries: Entries, maxEntries: int, e: Entry): (r: Entries)
    requires entries.Valid()
    ensures r.Valid()
  {
    var room := if !entries.Has(e.key) && entries.Size() >= maxEntries && entries.Size() > 0
                then entries.Delete(entries.keys[0]) else entries;
    room.Set(e.key, e)
  }

  predicate StartsWith(s: string, prefix: string) { |prefix| <= |s| && s[..|prefix|] == prefix }

  function HasPrefix(prefix: string): (string, Entry) -> bool { (key: string, _: Entry) => StartsWith(key, prefix) }

  function ExpiredBy(now: int): (string, Entry) -> bool { (_: string, e: Entry) => e.expiresAt <= now }

  class InMemoryCacheStore {
    var entries: Entries
    const maxEntries: int

    constructor (maxEntries: int)
      ensures entries == Empty() && this.maxEntries == maxEntries
    {
      entries := Empty();
      this.maxEntries := maxEntries;
    }

    method Get(key: string) returns (e: Option<Entry>)
      ensures e == entries.Get(key)
    {
      e := entries.Get(key);
    }

    method Put(e: Entry)
      requires entries.Valid()
      modifies this
      ensures entries == StorePut(old(entries), maxEntries, e)
    {
      if !entries.Has(e.key) && entries.Size() >= maxEntries {
        if entries.Size() > 0 { entries := entries.Delete(entries.keys[0]); }
      }
      entries := entries.Set(e.key, e);
    }

    method Delete(key: string) returns (removed: bool)
      requires entries.Valid()
      modifies this
      ensures entries == old(entries).Delete(key) && removed == old(entries).Has(key)
    {
      removed := entries.Has(key);
      entries := entries.Delete(key);
    }

    method DeleteByPrefix(prefix: string) returns (removed: nat)
      requires entries.Valid()
      modifies this
      ensures entries == DeleteWhere(old(entries), HasPrefix(prefix))
      ensures removed == |KeysWhere(old(entries), HasPrefix(prefix))|
    {
      entries, removed := Sweep(entries, HasPrefix(prefix));
    }

    method PurgeExpired(now: int) returns (removed: nat)
      requires entries.Valid()
      modifies this
      ensures entries == DeleteWhere(old(entries), ExpiredBy(now))
      ensures removed == |KeysWhere(old(entries), ExpiredBy(now))|
    {
      entries, removed := Sweep(entries, ExpiredBy(now));
    }
  }

  // --- the cache over it ------------------------------------------------------

  datatype Metrics = Metrics(
    hits: nat, misses: nat, skipped: nat, writes: nat, evictions: nat, savedCostCents: nat, savedTokens: nat)

  datatype State = State(entries: Entries, metrics: Metrics)

  datatype SetInput = SetInput(
    input: KeyInput,
    value: string,
    allowedByPolicy: bool,
    containsPii: bool,
    savedCostCents: nat,
    savedTokens: nat,
    ttlSeconds: Option<int>)

  function Initial(): (s: State)
    ensures s.entries.Valid()
  {
    State(Empty(), Metrics(0, 0, 0, 0, 0, 0, 0))
  }

  /** A lookup: what it returns, and the state it leaves. */
  function GetStep(c: Config, s: State, input: KeyInput, allowedByPolicy: bool, now: int): (r: (State, Option<string>))
    requires s.entries.Valid()
    ensures r.0.entries.Valid()
  {
    var m := s.metrics;
    if !c.policy.enabled || !allowedByPolicy then (s.(metrics := m.(skipped := m.skipped + 1)), None)
    else
      var key := BuildCacheKey(c.sha256, input);
      match s.entries.Get(key)
      case None => (s.(metrics := m.(misses := m.misses + 1)), None)
      case Some(e) =>
        if e.expiresAt <= now then
          (State(s.entries.Delete(key), m.(evictions := m.evictions + 1, misses := m.misses + 1)), None)
        else if e.organizationId != input.organizationId then
          (State(s.entries.Delete(key), m.(misses := m.misses + 1)), None)
        else
          (State(StorePut(s.entries, c.maxEntries, e.(hits := e.hits + 1)),
                 m.(hits := m.hits + 1, savedCostCents := m.savedCostCents + e.savedCostCents,
                    savedTokens := m.savedTokens + e.savedTokens)),
           Some(e.value))
  }

  /** Whether a value would be stored at all. */
  predicate Accepts(c: Config, i: SetInput) {
    && c.policy.enabled && i.allowedByPolicy
    && !(c.policy.skipWhenPiiDetected && i.containsPii)
    && |i.value| <= c.policy.maxValueBytes
  }

  function ExpiryOf(c: Config, i: SetInput, now: int): int {
    now + 1000 * (if i.ttlSeconds.Some? then i.ttlSeconds.value else c.policy.ttlSeconds)
  }

  function SetStep(c: Config, s: State, i: SetInput, now: int): (r: State)
    requires s.entries.Valid()
    ensures r.entries.Valid()
  {
    if !Accepts(c, i) then s
    else
      var key := BuildCacheKey(c.sha256, i.input);
      var e := Entry(key, i.input.organizationId, i.value, i.savedCostCents, i.savedTokens, ExpiryOf(c, i, now), 0);
      State(StorePut(s.entries, c.maxEntries, e), s.metrics.(writes := s.metrics.writes + 1))
  }

  /** Drops the entries that satisfy a test, and counts them as evictions. */
  function DropStep(s: State, doomed: (string, Entry) -> bool): (r: State)
    requires s.entries.Valid()
    ensures r.entries.Valid()
  {
    State(DeleteWhere(s.entries, doomed), s.metrics.(evictions := s.metrics.evictions + |KeysWhere(s.entries, doomed)|))
  }

  function InvalidateStep(s: State, prefix: string): (r: State)
    requires s.entries.Valid()
    ensures r.entries.Valid()
  {
    DropStep(s, HasPrefix(prefix))
  }

  function PurgeStep(s: State, now: int): (r: State)
    requires s.entries.Valid()
    ensures r.entries.Valid()
  {
    DropStep(s, ExpiredBy(now))
  }

  class AiCache {
    const config: Config
    const store: InMemoryCacheStore
    var metrics: Metrics

    ghost predicate Valid()
      reads this, store
    {
      store.entries.Valid() && store.maxEntries == config.maxEntries
    }

    ghost function Contents(): State
      reads this, store
    {
      State(store.entries, metrics)
    }

    constructor (config: Config)
      ensures Valid() && fresh(store) && this.config == config && Contents() == Initial()
    {
      this.config := config;
      store := new InMemoryCacheStore(config.maxEntries);
      metrics := Metrics(0, 0, 0, 0, 0, 0, 0);
    }

    method Get(input: KeyInput, allowedByPolicy: bool, now: int) returns (value: Option<string>)
      requires Valid()
      modifies this, store
      ensures Valid()
      ensures (Contents(), value) == GetStep(config, old(Contents()), input, allowedByPolicy, now)
    {
      hide BuildCacheKey, StorePut;
      if !config.policy.enabled || !allowedByPolicy {
        metrics := metrics.(skipped := metrics.skipped + 1);
        return None;
      }
      var key := BuildCacheKey(config.sha256, input);
      var found := store.Get(key);
      if found.None? {
        metrics := metrics.(misses := metrics.misses + 1);
        return None;
      }
      var entry := found.value;
      if entry.expiresAt <= now {
        var _ := store.Delete(key);
        metrics := metrics.(evictions := metrics.evictions + 1, misses := metrics.misses + 1);
        return None;
      }
      if entry.organizationId != input.organizationId {
        var _ := store.Delete(key);
        metrics := metrics.(misses := metrics.misses + 1);
        return None;
      }
      metrics := metrics.(hits := metrics.hits + 1, savedCostCents := metrics.savedCostCents + entry.savedCostCents,
                          savedTokens := metrics.savedTokens + entry.savedTokens);
      store.Put(entry.(hits := entry.hits + 1));
      return Some(entry.value);
    }

    method Set(i: SetInput, now: int) returns (stored: bool)
      requires Valid()
      modifies this, store
      ensures Valid()
      ensures Contents() == SetStep(config, old(Contents()), i, now) && stored == Accepts(config, i)
    {
      if !config.policy.enabled || !i.allowedByPolicy { return false; }
      if config.policy.skipWhenPiiDetected && i.containsPii { return false; }
      if |i.value| > config.policy.maxValueBytes { return false; }
      var key := BuildCacheKey(config.sha256, i.input);
      store.Put(Entry(key, i.input.organizationId, i.value, i.savedCostCents, i.savedTokens, ExpiryOf(config, i, now), 0));
      metrics := metrics.(writes := metrics.writes + 1);
      return true;
    }

    method InvalidateOrganization(org: Option<string>) returns (removed: nat)
      requires Valid()
      modifies this, store
      ensures Valid()
      ensures Contents() == InvalidateStep(old(Contents()), OrganizationPrefix(org))
    {
      removed := store.DeleteByPrefix(OrganizationPrefix(org));
      metrics := metrics.(evictions := metrics.evictions + removed);
    }

    method InvalidateKind(org: Option<string>, kind: Kind) returns (removed: nat)
      requires Valid()
      modifies this, store
      ensures Valid()
      ensures Contents() == InvalidateStep(old(Contents()), KindPrefix(org, kind))
    {
      removed := store.DeleteByPrefix(KindPrefix(org, kind));
      metrics := metrics.(evictions := metrics.evictions + removed);
    }

    method PurgeExpired(now: int) returns (removed: nat)
      requires Valid()
      modifies this, store
      ensures Valid()
      ensures Contents() == PurgeStep(old(Contents()), now)
    {
      removed := store.PurgeExpired(now);
      metrics := metrics.(evictions := metrics.evictions + removed);
    }
  }

  // --- runs -------------------------------------------------------------------

  datatype Op =
    | DoGet(input: KeyInput, allowedByPolicy: bool, now: int)
    | DoSet(stored: SetInput, now: int)
    | DoInvalidateOrganization(org: Option<string>)
    | DoInvalidateKind(org: Option<string>, kind: Kind)
    | DoPurge(now: int)

  function Step(c: Config, s: State, op: Op): (r: State)
    requires s.entries.Valid()
    ensures r.entries.Valid()
  {
    match op
    case DoGet(input, allowed, now) => GetStep(c, s, input, allowed, now).0
    case DoSet(i, now) => SetStep(c, s, i, now)
    case DoInvalidateOrganization(org) => InvalidateStep(s, OrganizationPrefix(org))
    case DoInvalidateKind(org, kind) => InvalidateStep(s, KindPrefix(org, kind))
    case DoPurge(now) => PurgeStep(s, now)
  }

  function Run(c: Config, ops: seq<Op>): (s: State)
    ensures s.entries.Valid()
  {
    if ops == [] then Initial() else Step(c, Run(c, ops[..|ops| - 1]), ops[|ops| - 1])
  }

  /** The reference: an unbounded map from a tenant's input to the last value it stored, and its expiry. */
  type Latest = map<KeyInput, (string, int)>

  function ReferenceStep(c: Config, m: Latest, op: Op): Latest {
    match op
    case DoSet(i, now) => if Accepts(c, i) then m[i.input := (i.value, ExpiryOf(c, i, now))] else m
    case DoInvalidateOrganization(org) => map k | k in m && k.organizationId != org :: m[k]
    case DoInvalidateKind(org, kind) => map k | k in m && !(k.organizationId == org && k.kind == kind) :: m[k]
    case _ => m
  }

  function Reference(c: Config, ops: seq<Op>): Latest {
    if ops == [] then map[] else ReferenceStep(c, Reference(c, ops[..|ops| - 1]), ops[|ops| - 1])
  }

  /** An entry is what the reference holds for the one input of its own tenant that has its key. */
  ghost predicate Backed(c: Config, latest: Latest, key: string, e: Entry) {
    exists input :: input in latest && BuildCacheKey(c.sha256, input) == key
      && input.organizationId == e.organizationId && e.key == key && latest[input] == (e.value, e.expiresAt)
  }

  ghost predicate Refines(c: Config, s: State, latest: Latest) {
    && s.entries.Valid()
    && forall k :: k in s.entries.vals ==> Backed(c, latest, k, s.entries.vals[k])
  }

  lemma SameTenantSameKey(c: Config, a: KeyInput, b: KeyInput)
    requires Digest(c.sha256) && BuildCacheKey(c.sha256, a) == BuildCacheKey(c.sha256, b)
    requires a.organizationId == b.organizationId
    ensures a == b
  {
    KeyDeterminesInput(c.sha256, a, b);
  }

  lemma GetRefines(c: Config, s: State, latest: Latest, input: KeyInput, allowed: bool, now: int)
    requires Digest(c.sha256) && Refines(c, s, latest)
    ensures Refines(c, GetStep(c, s, input, allowed, now).0, latest)
    ensures var r := GetStep(c, s, input, allowed, now).1;
            r.Some? ==> input in latest && latest[input].0 == r.value && latest[input].1 > now
  {
    hide BuildCacheKey, Digest;
    var key := BuildCacheKey(c.sha256, input);
    if s.entries.Has(key) {
      assert Backed(c, latest, key, s.entries.vals[key]);
      var found :| found in latest && BuildCacheKey(c.sha256, found) == key
        && found.organizationId == s.entries.vals[key].organizationId && latest[found] == (s.entries.vals[key].value, s.entries.vals[key].expiresAt);
      if found.organizationId == input.organizationId { SameTenantSameKey(c, found, input); }
    }
    var r := GetStep(c, s, input, allowed, now).0;
    forall k | k in r.entries.vals ensures Backed(c, latest, k, r.entries.vals[k]) {
      assert Backed(c, latest, k, s.entries.vals[k]);
    }
  }

  lemma SetRefines(c: Config, s: State, latest: Latest, i: SetInput, now: int)
    requires Digest(c.sha256) && Refines(c, s, latest) && Accepts(c, i)
    ensures Refines(c, SetStep(c, s, i, now), latest[i.input := (i.value, ExpiryOf(c, i, now))])
  {
    hide BuildCacheKey, Digest;
    var r, key := SetStep(c, s, i, now), BuildCacheKey(c.sha256, i.input);
    var after := latest[i.input := (i.value, ExpiryOf(c, i, now))];
    forall k | k in r.entries.vals ensures Backed(c, after, k, r.entries.vals[k]) {
      if k == key {
        assert i.input in after;
      } else {
        assert Backed(c, latest, k, s.entries.vals[k]);
        var found :| found in latest && BuildCacheKey(c.sha256, found) == k
          && found.organizationId == s.entries.vals[k].organizationId && latest[found] == (s.entries.vals[k].value, s.entries.vals[k].expiresAt);
        assert found in after;
      }
    }
  }

  /** Dropping from the reference only what the store drops too. */
  lemma InvalidateRefines(c: Config, s: State, latest: Latest, prefix: string, after: Latest)
    requires Refines(c, s, latest)
    requires forall k :: k in latest && k !in after ==> StartsWith(BuildCacheKey(c.sha256, k), prefix)
    requires forall k :: k in after ==> k in latest && after[k] == latest[k]
    ensures Refines(c, InvalidateStep(s, prefix), after)
  {
    hide BuildCacheKey, StartsWith;
    var r := InvalidateStep(s, prefix);
    forall k | k in r.entries.vals ensures Backed(c, after, k, r.entries.vals[k]) {
      assert Backed(c, latest, k, s.entries.vals[k]);
      var found :| found in latest && BuildCacheKey(c.sha256, found) == k
        && found.organizationId == s.entries.vals[k].organizationId && latest[found] == (s.entries.vals[k].value, s.entries.vals[k].expiresAt);
      assert !HasPrefix(prefix)(k, s.entries.vals[k]);
      assert found in after;
    }
  }

  lemma PurgeRefines(c: Config, s: State, latest: Latest, now: int)
    requires Refines(c, s, latest)
    ensures Refines(c, PurgeStep(s, now), latest)
  {
  }

  lemma KeyHasPrefixes(sha256: Material -> string, input: KeyInput)
    ensures StartsWith(BuildCacheKey(sha256, input), OrganizationPrefix(input.organizationId))
    ensures StartsWith(BuildCacheKey(sha256, input), KindPrefix(input.organizationId, input.kind))
  {
  }

  lemma InvalidateOrganizationRefines(c: Config, s: State, m: Latest, org: Option<string>)
    requires Refines(c, s, m)
    ensures Refines(c, InvalidateStep(s, OrganizationPrefix(org)), ReferenceStep(c, m, DoInvalidateOrganization(org)))
  {
    hide BuildCacheKey, StartsWith, InvalidateStep, Refines, OrganizationPrefix, KindPrefix;
    forall k | k in m && k.organizationId == org ensures StartsWith(BuildCacheKey(c.sha256, k), OrganizationPrefix(org)) {
      KeyHasPrefixes(c.sha256, k);
    }
    InvalidateRefines(c, s, m, OrganizationPrefix(org), ReferenceStep(c, m, DoInvalidateOrganization(org)));
  }

  lemma InvalidateKindRefines(c: Config, s: State, m: Latest, org: Option<string>, kind: Kind)
    requires Refines(c, s, m)
    ensures Refines(c, InvalidateStep(s, KindPrefix(org, kind)), ReferenceStep(c, m, DoInvalidateKind(org, kind)))
  {
    hide BuildCacheKey, StartsWith, InvalidateStep, Refines, OrganizationPrefix, KindPrefix;
    forall k | k in m && k.organizationId == org && k.kind == kind ensures StartsWith(BuildCacheKey(c.sha256, k), KindPrefix(org, kind)) {
      KeyHasPrefixes(c.sha256, k);
    }
    InvalidateRefines(c, s, m, KindPrefix(org, kind), ReferenceStep(c, m, DoInvalidateKind(org, kind)));
  }

  lemma StepRefines(c: Config, s: State, m: Latest, op: Op)
    requires Digest(c.sha256) && s.entries.Valid() && Refines(c, s, m)
    ensures Refines(c, Step(c, s, op), ReferenceStep(c, m, op))
  {
    hide BuildCacheKey, Digest, Refines, GetStep, SetStep, InvalidateStep, PurgeStep, OrganizationPrefix, KindPrefix, ExpiryOf;
    match op
    case DoGet(input, allowed, now) => GetRefines(c, s, m, input, allowed, now);
    case DoSet(i, now) => if Accepts(c, i) { SetRefines(c, s, m, i, now); } else { RejectedSet(c, s, i, now); }
    case DoInvalidateOrganization(org) => InvalidateOrganizationRefines(c, s, m, org);
    case DoInvalidateKind(org, kind) => InvalidateKindRefines(c, s, m, org, kind);
    case DoPurge(now) => PurgeRefines(c, s, m, now);
  }

  lemma {:induction false} RunRefines(c: Config, ops: seq<Op>)
    requires Digest(c.sha256)
    ensures Refines(c, Run(c, ops), Reference(c, ops))
  {
    if ops != [] {
      hide Digest, Refines, Step, ReferenceStep;
      RunRefines(c, ops[..|ops| - 1]);
      StepRefines(c, Run(c, ops[..|ops| - 1]), Reference(c, ops[..|ops| - 1]), ops[|ops| - 1]);
    }
  }

  lemma RejectedSet(c: Config, s: State, i: SetInput, now: int)
    requires s.entries.Valid() && !Accepts(c, i)
    ensures SetStep(c, s, i, now) == s
  {
  }

  /**
   * Over any run, a hit returns the latest value its own tenant stored for that very input, not
   * expired and not invalidated since.
   */
  lemma HitIsLatest(c: Config, ops: seq<Op>, input: KeyInput, allowed: bool, now: int)
    requires Digest(c.sha256)
    ensures var r := GetStep(c, Run(c, ops), input, allowed, now).1;
            r.Some? ==> input in Reference(c, ops)
                        && Reference(c, ops)[input].0 == r.value && Reference(c, ops)[input].1 > now
  {
    hide GetStep, Refines;
    RunRefines(c, ops);
    GetRefines(c, Run(c, ops), Reference(c, ops), input, allowed, now);
  }

  lemma PutSize(entries: Entries, maxEntries: int, e: Entry)
    requires entries.Valid()
    ensures var r := StorePut(entries, maxEntries, e);
            && r.Size() <= entries.Size() + (if entries.Has(e.key) then 0 else 1)
            && (entries.Size() <= (if maxEntries < 1 then 1 else maxEntries) ==>
                  r.Size() <= if maxEntries < 1 then 1 else maxEntries)
  {
  }

  /** Every entry sits under its own key. */
  ghost predicate Keyed(s: State) {
    s.entries.Valid() && forall k :: k in s.entries.vals ==> s.entries.vals[k].key == k
  }

  function Bound(c: Config): int { if c.maxEntries < 1 then 1 else c.maxEntries }

  lemma GetSize(c: Config, s: State, input: KeyInput, allowed: bool, now: int)
    requires Keyed(s)
    ensures Keyed(GetStep(c, s, input, allowed, now).0)
    ensures GetStep(c, s, input, allowed, now).0.entries.Size() <= s.entries.Size()
  {
    hide BuildCacheKey;
  }

  lemma SetSize(c: Config, s: State, i: SetInput, now: int)
    requires Keyed(s)
    ensures Keyed(SetStep(c, s, i, now))
    ensures SetStep(c, s, i, now).entries.Size() <= s.entries.Size() + 1
    ensures s.entries.Size() <= Bound(c) ==> SetStep(c, s, i, now).entries.Size() <= Bound(c)
  {
    hide BuildCacheKey;
    if Accepts(c, i) {
      var key := BuildCacheKey(c.sha256, i.input);
      PutSize(s.entries, c.maxEntries, Entry(key, i.input.organizationId, i.value, i.savedCostCents, i.savedTokens, ExpiryOf(c, i, now), 0));
    }
  }

  lemma StepSize(c: Config, s: State, op: Op)
    requires Keyed(s)
    ensures Keyed(Step(c, s, op))
    ensures Step(c, s, op).entries.Size() <= s.entries.Size() + if op.DoSet? then 1 else 0
    ensures s.entries.Size() <= Bound(c) ==> Step(c, s, op).entries.Size() <= Bound(c)
  {
    hide GetStep, SetStep, BuildCacheKey, DeleteWhere, KeysWhere;
    match op
    case DoGet(input, allowed, now) => GetSize(c, s, input, allowed, now);
    case DoSet(i, now) => SetSize(c, s, i, now);
    case _ =>
  }

  function Sets(ops: seq<Op>): nat {
    if ops == [] then 0 else Sets(ops[..|ops| - 1]) + if ops[|ops| - 1].DoSet? then 1 else 0
  }

  /** The store never outgrows its bound, nor the number of sets; a bound below one still holds one entry. */
  lemma {:induction false} SizeBounded(c: Config, ops: seq<Op>)
    ensures Keyed(Run(c, ops))
    ensures Run(c, ops).entries.Size() <= Bound(c)
    ensures Run(c, ops).entries.Size() <= Sets(ops)
  {
    if ops != [] {
      SizeBounded(c, ops[..|ops| - 1]);
      StepSize(c, Run(c, ops[..|ops| - 1]), ops[|ops| - 1]);
      hide Step, Keyed;
    }
  }

  function Gets(ops: seq<Op>): nat {
    if ops == [] then 0 else Gets(ops[..|ops| - 1]) + if ops[|ops| - 1].DoGet? then 1 else 0
  }

  /** Every lookup is counted once: as a hit, a miss, or skipped. */
  lemma {:induction false} LookupsAccounted(c: Config, ops: seq<Op>)
    ensures var m := Run(c, ops).metrics; m.hits + m.misses + m.skipped == Gets(ops)
  {
    if ops != [] {
      LookupsAccounted(c, ops[..|ops| - 1]);
    }
  }

  // --- exact until full -------------------------------------------------------

  /** A tenant id the key text cannot confuse with another's. */
  predicate Plain(org: Option<string>) { org.Some? ==> org.value != "platform" && ':' !in org.value }

  ghost predicate PlainOp(op: Op) {
    match op
    case DoGet(input, _, _) => Plain(input.organizationId)
    case DoSet(i, _) => Plain(i.input.organizationId)
    case DoInvalidateOrganization(org) => Plain(org)
    case DoInvalidateKind(org, _) => Plain(org)
    case DoPurge(_) => true
  }

  ghost predicate By(op: Op, now: int) {
    match op
    case DoGet(_, _, at) => at <= now
    case DoSet(_, at) => at <= now
    case DoPurge(at) => at <= now
    case _ => true
  }

  /** The entry a live input must have. */
  ghost predicate Holds(c: Config, s: State, input: KeyInput, value: string, expiresAt: int) {
    var key := BuildCacheKey(c.sha256, input);
    && key in s.entries.vals
    && s.entries.vals[key].key == key
    && s.entries.vals[key].organizationId == input.organizationId
    && s.entries.vals[key].value == value && s.entries.vals[key].expiresAt == expiresAt
  }

  /** A set of a key that is not there, in a full store: the oldest entry goes. */
  predicate PushesOut(c: Config, s: State, i: SetInput) {
    Accepts(c, i) && !s.entries.Has(BuildCacheKey(c.sha256, i.input)) && s.entries.Size() >= c.maxEntries && s.entries.Size() > 0
  }

  ghost function PushedBy(c: Config, s: State, i: SetInput): iset<KeyInput> {
    iset j | PushesOut(c, s, i) && s.entries.keys[0] == BuildCacheKey(c.sha256, j)
  }

  /** The inputs whose entry a full store pushed out, and that have not been set since. */
  ghost function Lost(c: Config, ops: seq<Op>): iset<KeyInput> {
    if ops == [] then iset{}
    else
      var front, op := ops[..|ops| - 1], ops[|ops| - 1];
      match op
      case DoSet(i, _) => LostBySet(c, Run(c, front), Lost(c, front), i)
      case _ => Lost(c, front)
  }

  ghost function LostBySet(c: Config, s: State, lost: iset<KeyInput>, i: SetInput): iset<KeyInput> {
    if Accepts(c, i) then lost + PushedBy(c, s, i) - iset{i.input} else lost
  }

  /** What the reference holds live at `now` is in the store, unless it was pushed out: then it is not. */
  ghost predicate Complete(c: Config, s: State, latest: Latest, lost: iset<KeyInput>, now: int) {
    && s.entries.Valid()
    && (forall i :: i in latest ==> Plain(i.organizationId))
    && (forall i :: i in latest && latest[i].1 > now ==> Accounted(c, s, lost, i, latest[i].0, latest[i].1))
  }

  ghost predicate Accounted(c: Config, s: State, lost: iset<KeyInput>, i: KeyInput, value: string, expiresAt: int) {
    if i in lost then !s.entries.Has(BuildCacheKey(c.sha256, i)) else Holds(c, s, i, value, expiresAt)
  }

  lemma PlainKeysApart(c: Config, a: KeyInput, b: KeyInput)
    requires Digest(c.sha256) && Plain(a.organizationId) && Plain(b.organizationId)
    ensures BuildCacheKey(c.sha256, a) == BuildCacheKey(c.sha256, b) <==> a == b
  {
    KeyDeterminesInput(c.sha256, a, b);
  }

  lemma PrefixParse(x: string, y: string, rest: string)
    requires ':' !in x && ':' !in y
    ensures StartsWith("ai:" + x + ":" + rest, "ai:" + y + ":") <==> x == y
  {
    var key, prefix := "ai:" + x + ":" + rest, "ai:" + y + ":";
    if StartsWith(key, prefix) {
      var tail := key[|prefix|..];
      assert key == prefix + tail;
      assert key[3..] == x + ":" + rest && key[3..] == y + ":" + tail;
      SplitAtFirst(x, rest, ':');
      SplitAtFirst(y, tail, ':');
      assert Split(key[3..], ':')[0] == x && Split(key[3..], ':')[0] == y;
    }
    assert x == y ==> key[..|prefix|] == prefix;
  }

  /** The hex digest holds no colon. */
  ghost predicate HexDigest(sha256: Material -> string) { forall m :: ':' !in sha256(m) }

  /**
   * Whose entries an organization's invalidation drops: its own, those of every tenant whose id extends
   * its id past a colon, and, when its id is another's extended by an entry kind, that tenant's of the kind.
   */
  lemma InvalidatedExactly(c: Config, input: KeyInput, org: Option<string>)
    requires HexDigest(c.sha256)
    ensures var x, y := OrganizationText(input.organizationId), OrganizationText(org);
            StartsWith(BuildCacheKey(c.sha256, input), OrganizationPrefix(org))
            <==> x == y || StartsWith(x, y + ":") || y == x + ":" + input.kind.Name()
  {
    var x, y := OrganizationText(input.organizationId), OrganizationText(org);
    var kind, digest := input.kind.Name(), c.sha256(MaterialOf(input));
    var rest := x + ":" + (kind + ":" + digest);
    assert BuildCacheKey(c.sha256, input) == "ai:" + rest && OrganizationPrefix(org) == "ai:" + (y + ":");
    assert StartsWith("ai:" + rest, "ai:" + (y + ":")) <==> StartsWith(rest, y + ":") by { AfterCommon("ai:", rest, y + ":"); }
    assert ':' !in kind && ':' !in digest;
    hide BuildCacheKey, OrganizationPrefix;
    FieldPrefix(x, kind, digest, y);
  }

  lemma AfterCommon(head: string, s: string, prefix: string)
    ensures StartsWith(head + s, head + prefix) <==> StartsWith(s, prefix)
  {
    if StartsWith(head + s, head + prefix) {
      assert s[..|prefix|] == (head + s)[..|head + prefix|][|head|..];
    }
    if StartsWith(s, prefix) {
      assert (head + s)[..|head + prefix|] == head + s[..|prefix|];
    }
  }

  lemma FieldPrefix(x: string, kind: string, digest: string, y: string)
    requires ':' !in kind && ':' !in digest
    ensures StartsWith(x + ":" + (kind + ":" + digest), y + ":") <==> x == y || StartsWith(x, y + ":") || y == x + ":" + kind
  {
    var s, p := x + ":" + (kind + ":" + digest), y + ":";
    assert s == x + (":" + (kind + ":" + digest));
    if x == y {
      assert s[..|p|] == p;
    } else if |y| < |x| {
      assert s[..|p|] == x[..|p|];
    } else if |y| == |x| {
      if StartsWith(s, p) { SameLengthPrefix(x, ":" + (kind + ":" + digest), y, ":"); }
    } else {
      AfterField(x, kind, digest, y);
    }
  }

  lemma SameLengthPrefix(x: string, rest: string, y: string, tail: string)
    requires |x| == |y| && StartsWith(x + rest, y + tail)
    ensures x == y
  {
    assert x == (x + rest)[..|y + tail|][..|x|] && y == (y + tail)[..|x|];
  }

  lemma AfterField(x: string, kind: string, digest: string, y: string)
    requires ':' !in kind && ':' !in digest && |y| > |x|
    ensures StartsWith(x + ":" + (kind + ":" + digest), y + ":") <==> y == x + ":" + kind
  {
    var s, p := x + ":" + (kind + ":" + digest), y + ":";
    if StartsWith(s, p) {
      assert s[|y|] == p[|y|] == ':';
      assert |y| == |x| + 1 + |kind|;
      assert y == s[..|y|];
      assert s[..|y|] == x + ":" + kind;
    }
    if y == x + ":" + kind { assert s[..|p|] == p; }
  }

  /** Tenant "a" invalidated, tenant "a:b" loses everything too. */
  lemma InvalidationReachesAnother(c: Config, input: KeyInput)
    requires HexDigest(c.sha256) && input.organizationId == Some("a:b")
    ensures StartsWith(BuildCacheKey(c.sha256, input), OrganizationPrefix(Some("a")))
  {
    assert "a:b"[..2] == "a" + ":";
    InvalidatedExactly(c, input, Some("a"));
  }

  lemma PlainOrganizationPrefix(c: Config, input: KeyInput, org: Option<string>)
    requires Plain(input.organizationId) && Plain(org)
    ensures StartsWith(BuildCacheKey(c.sha256, input), OrganizationPrefix(org)) <==> input.organizationId == org
  {
    var x, y := OrganizationText(input.organizationId), OrganizationText(org);
    var rest := input.kind.Name() + ":" + c.sha256(MaterialOf(input));
    assert BuildCacheKey(c.sha256, input) == "ai:" + x + ":" + rest;
    PrefixParse(x, y, rest);
  }

  lemma PlainKindPrefix(c: Config, input: KeyInput, org: Option<string>, kind: Kind)
    requires Plain(input.organizationId) && Plain(org)
    ensures StartsWith(BuildCacheKey(c.sha256, input), KindPrefix(org, kind)) <==> input.organizationId == org && input.kind == kind
  {
    KeyHasPrefixes(c.sha256, input);
    PlainOrganizationPrefix(c, input, org);
    var key, prefix, head := BuildCacheKey(c.sha256, input), KindPrefix(org, kind), OrganizationPrefix(org);
    if StartsWith(key, prefix) {
      assert prefix[..|head|] == head;
      assert key[..|head|] == prefix[..|head|];
      assert key[|head|] == prefix[|head|];
      assert key[|head|] == input.kind.Name()[0] && prefix[|head|] == kind.Name()[0];
    }
  }

  lemma GetComplete(c: Config, s: State, latest: Latest, lost: iset<KeyInput>, input: KeyInput, allowed: bool, at: int, now: int)
    requires Digest(c.sha256) && Keyed(s) && Complete(c, s, latest, lost, now) && Plain(input.organizationId) && at <= now
    ensures Complete(c, GetStep(c, s, input, allowed, at).0, latest, lost, now)
  {
    hide BuildCacheKey, Digest, Plain;
    var r := GetStep(c, s, input, allowed, at).0;
    forall i | i in latest && latest[i].1 > now ensures Accounted(c, r, lost, i, latest[i].0, latest[i].1) {
      assert Accounted(c, s, lost, i, latest[i].0, latest[i].1);
      PlainKeysApart(c, i, input);
    }
  }

  /** What one set does to one other input's entry. */
  lemma SetAccounts(c: Config, s: State, lost: iset<KeyInput>, i: SetInput, at: int, j: KeyInput, value: string, expiresAt: int)
    requires Digest(c.sha256) && s.entries.Valid() && Accepts(c, i) && Plain(i.input.organizationId) && Plain(j.organizationId)
    requires j != i.input && Accounted(c, s, lost, j, value, expiresAt)
    ensures Accounted(c, SetStep(c, s, i, at), LostBySet(c, s, lost, i), j, value, expiresAt)
  {
    PlainKeysApart(c, j, i.input);
    hide BuildCacheKey, Digest, Plain;
    assert s.entries.Size() > 0 ==> s.entries.keys[0] in s.entries.keys;
  }

  lemma SetComplete(c: Config, s: State, latest: Latest, lost: iset<KeyInput>, i: SetInput, at: int, now: int)
    requires Digest(c.sha256) && Complete(c, s, latest, lost, now) && Plain(i.input.organizationId) && Accepts(c, i)
    ensures Complete(c, SetStep(c, s, i, at), latest[i.input := (i.value, ExpiryOf(c, i, at))], LostBySet(c, s, lost, i), now)
  {
    var r, after := SetStep(c, s, i, at), latest[i.input := (i.value, ExpiryOf(c, i, at))];
    assert Holds(c, r, i.input, i.value, ExpiryOf(c, i, at));
    assert i.input !in LostBySet(c, s, lost, i);
    hide BuildCacheKey, Digest, Plain, SetStep, LostBySet, Holds, ExpiryOf;
    forall j | j in after && after[j].1 > now ensures Accounted(c, r, LostBySet(c, s, lost, i), j, after[j].0, after[j].1) {
      if j != i.input {
        assert Accounted(c, s, lost, j, latest[j].0, latest[j].1);
        SetAccounts(c, s, lost, i, at, j, latest[j].0, latest[j].1);
      }
    }
  }

  lemma InvalidateComplete(c: Config, s: State, latest: Latest, lost: iset<KeyInput>, prefix: string, after: Latest, now: int)
    requires Complete(c, s, latest, lost, now)
    requires forall k :: k in after ==> k in latest && after[k] == latest[k]
    requires forall k :: k in after ==> !StartsWith(BuildCacheKey(c.sha256, k), prefix)
    ensures Complete(c, InvalidateStep(s, prefix), after, lost, now)
  {
    hide BuildCacheKey, Plain, StartsWith;
    forall i | i in after && after[i].1 > now
      ensures Accounted(c, InvalidateStep(s, prefix), lost, i, after[i].0, after[i].1)
    {
      assert Accounted(c, s, lost, i, latest[i].0, latest[i].1);
    }
  }

  lemma PurgeComplete(c: Config, s: State, latest: Latest, lost: iset<KeyInput>, at: int, now: int)
    requires Complete(c, s, latest, lost, now) && at <= now
    ensures Complete(c, PurgeStep(s, at), latest, lost, now)
  {
    hide BuildCacheKey, Plain;
    forall i | i in latest && latest[i].1 > now
      ensures Accounted(c, PurgeStep(s, at), lost, i, latest[i].0, latest[i].1)
    {
      assert Accounted(c, s, lost, i, latest[i].0, latest[i].1);
    }
  }

  lemma StepComplete(c: Config, s: State, m: Latest, lost: iset<KeyInput>, op: Op, now: int)
    requires Digest(c.sha256) && Keyed(s) && s.entries.Valid() && Complete(c, s, m, lost, now) && PlainOp(op) && By(op, now)
    ensures Complete(c, Step(c, s, op), ReferenceStep(c, m, op), if op.DoSet? then LostBySet(c, s, lost, op.stored) else lost, now)
  {
    assert forall k :: k in m ==> Plain(k.organizationId);
    hide BuildCacheKey, StartsWith, GetStep, SetStep, InvalidateStep, PurgeStep, OrganizationPrefix, KindPrefix, Accounted, Plain, Digest, Keyed;
    match op
    case DoGet(input, allowed, at) => GetComplete(c, s, m, lost, input, allowed, at, now);
    case DoSet(i, at) => if Accepts(c, i) { SetComplete(c, s, m, lost, i, at, now); } else { RejectedSet(c, s, i, at); }
    case DoInvalidateOrganization(org) =>
      forall k | k in m && k.organizationId != org ensures !StartsWith(BuildCacheKey(c.sha256, k), OrganizationPrefix(org)) {
        PlainOrganizationPrefix(c, k, org);
      }
      InvalidateComplete(c, s, m, lost, OrganizationPrefix(org), ReferenceStep(c, m, op), now);
    case DoInvalidateKind(org, kind) =>
      forall k | k in m && !(k.organizationId == org && k.kind == kind) ensures !StartsWith(BuildCacheKey(c.sha256, k), KindPrefix(org, kind)) {
        PlainKindPrefix(c, k, org, kind);
      }
      InvalidateComplete(c, s, m, lost, KindPrefix(org, kind), ReferenceStep(c, m, op), now);
    case DoPurge(at) => PurgeComplete(c, s, m, lost, at, now);
  }

  ghost predicate PlainRun(ops: seq<Op>, now: int) { forall k :: 0 <= k < |ops| ==> PlainOp(ops[k]) && By(ops[k], now) }

  lemma {:induction false} RunComplete(c: Config, ops: seq<Op>, now: int)
    requires Digest(c.sha256) && PlainRun(ops, now)
    ensures Complete(c, Run(c, ops), Reference(c, ops), Lost(c, ops), now)
  {
    if ops != [] {
      var front, op := ops[..|ops| - 1], ops[|ops| - 1];
      assert PlainOp(op) && By(op, now);
      RunComplete(c, front, now);
      SizeBounded(c, front);
      hide Digest, Complete, Keyed, Step, ReferenceStep, LostBySet, PlainOp, By;
      StepComplete(c, Run(c, front), Reference(c, front), Lost(c, front), op, now);
    }
  }

  /** What an unbounded map of latest sets would answer. */
  function Ideal(m: Latest, input: KeyInput, now: int): Option<string> {
    if input in m && m[input].1 > now then Some(m[input].0) else None
  }

  /**
   * With tenant ids the key text keeps apart, a lookup answers as the reference map does exactly unless
   * the value is still live there and a full store has pushed it out since it was set.
   */
  lemma LookupExactly(c: Config, ops: seq<Op>, input: KeyInput, now: int)
    requires Digest(c.sha256) && c.policy.enabled && Plain(input.organizationId) && PlainRun(ops, now)
    ensures GetStep(c, Run(c, ops), input, true, now).1 == Ideal(Reference(c, ops), input, now)
            <==> !(input in Lost(c, ops) && Ideal(Reference(c, ops), input, now).Some?)
  {
    RunComplete(c, ops, now);
    HitIsLatest(c, ops, input, true, now);
    hide BuildCacheKey, Digest, Plain, Run, Reference, Lost;
    if input in Reference(c, ops) && Reference(c, ops)[input].1 > now {
      assert Accounted(c, Run(c, ops), Lost(c, ops), input, Reference(c, ops)[input].0, Reference(c, ops)[input].1);
    }
  }

  /** No set ever found the store full and its own key absent. */
  ghost predicate NeverFull(c: Config, ops: seq<Op>) {
    forall k :: 0 <= k < |ops| && ops[k].DoSet? ==> !PushesOut(c, Run(c, ops[..k]), ops[k].stored)
  }

  lemma {:induction false} NothingLost(c: Config, ops: seq<Op>)
    requires NeverFull(c, ops)
    ensures Lost(c, ops) == iset{}
  {
    if ops != [] {
      var n := |ops| - 1;
      var front := ops[..n];
      hide PushesOut, Run, Accepts;
      assert NeverFull(c, front) by {
        forall k | 0 <= k < |front| && front[k].DoSet? ensures !PushesOut(c, Run(c, front[..k]), front[k].stored) {
          assert front[..k] == ops[..k];
        }
      }
      NothingLost(c, front);
      assert ops[n].DoSet? ==> !PushesOut(c, Run(c, ops[..n]), ops[n].stored);
    }
  }

  /** While the store has never been full, a lookup is the reference map's: it loses nothing. */
  lemma ExactUntilFull(c: Config, ops: seq<Op>, input: KeyInput, now: int)
    requires Digest(c.sha256) && c.policy.enabled && Plain(input.organizationId) && PlainRun(ops, now)
    requires NeverFull(c, ops)
    ensures GetStep(c, Run(c, ops), input, true, now).1 == Ideal(Reference(c, ops), input, now)
  {
    hide *;
    LookupExactly(c, ops, input, now);
    NothingLost(c, ops);
  }

  lemma {:induction false} SetsGrow(ops: seq<Op>, k: nat)
    requires k <= |ops|
    ensures Sets(ops[..k]) <= Sets(ops)
    ensures k < |ops| && ops[k].DoSet? ==> Sets(ops[..k]) < Sets(ops)
  {
    if k == |ops| {
      assert ops[..k] == ops;
    } else {
      var front := ops[..|ops| - 1];
      SetsGrow(front, k);
      assert front[..k] == ops[..k];
    }
  }

  /** A store with room for every set there has been has never been full. */
  lemma FewSetsNeverFill(c: Config, ops: seq<Op>)
    requires Sets(ops) <= c.maxEntries
    ensures NeverFull(c, ops)
  {
    forall k | 0 <= k < |ops| && ops[k].DoSet? ensures !PushesOut(c, Run(c, ops[..k]), ops[k].stored) {
      SizeBounded(c, ops[..k]);
      SetsGrow(ops, k);
    }
  }
}
