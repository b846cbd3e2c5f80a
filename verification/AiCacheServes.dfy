/** What a lookup may serve and what a set may store, in the policy's own terms. */
module AiCacheServes {
  import opened Text
  import opened JsMap
  import opened AiCaches

  // --- what was stored --------------------------------------------------------

  /** What the reference holds was set, may be stored, and lives its own or the policy's time to live. */
  lemma {:induction false} ReferenceWasSet(c: Config, ops: seq<Op>, input: KeyInput)
    requires input in Reference(c, ops)
    ensures exists k :: 0 <= k < |ops| && ops[k].DoSet? && SetsAt(c, ops, k, input, Reference(c, ops)[input])
  {
    var n := |ops| - 1;
    var front, op := ops[..n], ops[n];
    if op.DoSet? && op.stored.input == input && Accepts(c, op.stored) {
      assert SetsAt(c, ops, n, input, Reference(c, ops)[input]);
    } else {
      assert input in Reference(c, front) && Reference(c, front)[input] == Reference(c, ops)[input];
      ReferenceWasSet(c, front, input);
      var k :| 0 <= k < |front| && front[k].DoSet? && SetsAt(c, front, k, input, Reference(c, front)[input]);
      assert SetsAt(c, ops, k, input, Reference(c, ops)[input]);
    }
  }

  ghost predicate SetsAt(c: Config, ops: seq<Op>, k: int, input: KeyInput, held: (string, int))
    requires 0 <= k < |ops| && ops[k].DoSet?
  {
    var i := ops[k].stored;
    && i.input == input && i.value == held.0
    && held.1 == ops[k].now + 1000 * (if i.ttlSeconds == None then c.policy.ttlSeconds else i.ttlSeconds.value)
    && c.policy.enabled && i.allowedByPolicy && |i.value| <= c.policy.maxValueBytes && !(i.containsPii && c.policy.skipWhenPiiDetected)
  }

  /**
   * Whatever is served was set in this run by that tenant for that input: with caching on and allowed, no
   * longer than the policy permits, without personal data where the policy skips it, and not longer ago than
   * its own time to live, or without one the policy's.
   */
  lemma ServedWasSet(c: Config, ops: seq<Op>, input: KeyInput, allowed: bool, now: int)
    requires Digest(c.sha256)
    ensures var served := GetStep(c, Run(c, ops), input, allowed, now).1;
            served.Some? ==>
              c.policy.enabled && allowed
              && exists k :: 0 <= k < |ops| && ops[k].DoSet?
                   && ops[k].stored.input == input && ops[k].stored.value == served.value && ops[k].stored.allowedByPolicy
                   && |served.value| <= c.policy.maxValueBytes
                   && !(ops[k].stored.containsPii && c.policy.skipWhenPiiDetected)
                   && now < ops[k].now + 1000 * (if ops[k].stored.ttlSeconds == None then c.policy.ttlSeconds else ops[k].stored.ttlSeconds.value)
  {
    HitIsLatest(c, ops, input, allowed, now);
    var served := GetStep(c, Run(c, ops), input, allowed, now).1;
    hide Run, Reference, Digest, BuildCacheKey, StorePut;
    if served.Some? {
      ReferenceWasSet(c, ops, input);
      var k :| 0 <= k < |ops| && ops[k].DoSet? && SetsAt(c, ops, k, input, Reference(c, ops)[input]);
    }
  }

  /**
   * A set that meets these is served, from whatever state it was made in, until its time is up and not
   * after; a set that fails one changes nothing.
   */
  lemma SetServedExactly(c: Config, s: State, i: SetInput, at: int, now: int)
    requires s.entries.Valid()
    ensures if c.policy.enabled && i.allowedByPolicy && |i.value| <= c.policy.maxValueBytes && !(i.containsPii && c.policy.skipWhenPiiDetected) then
              GetStep(c, Step(c, s, DoSet(i, at)), i.input, true, now).1
              == if now < at + 1000 * (if i.ttlSeconds == None then c.policy.ttlSeconds else i.ttlSeconds.value) then Some(i.value) else None
            else Step(c, s, DoSet(i, at)) == s
  {
    hide BuildCacheKey;
  }

  /** And what that set says it cost is what the lookup saves. */
  lemma SavingsCredited(c: Config, s: State, i: SetInput, at: int, now: int)
    requires s.entries.Valid()
    ensures var stored := Step(c, s, DoSet(i, at)); var (t, served) := GetStep(c, stored, i.input, true, now);
            stored != s && served.Some? ==>
              t.metrics.savedCostCents == s.metrics.savedCostCents + i.savedCostCents
              && t.metrics.savedTokens == s.metrics.savedTokens + i.savedTokens
  {
    hide BuildCacheKey;
  }

  // --- what is pushed out -----------------------------------------------------

  /** A new key goes last, and when the store is full the one set first goes; a key already there keeps its place. */
  lemma PushedOutExactly(entries: Entries, maxEntries: int, e: Entry)
    requires entries.Valid()
    ensures var r := StorePut(entries, maxEntries, e);
            && e.key in r.vals && r.vals[e.key] == e
            && (e.key in entries.vals ==> r.keys == entries.keys)
            && (e.key !in entries.vals ==>
                  r.keys == (if entries.keys != [] && |entries.keys| >= maxEntries then entries.keys[1..] else entries.keys) + [e.key])
            && forall k :: k in r.keys && k != e.key ==> k in entries.vals && k in r.vals && r.vals[k] == entries.vals[k]
  {
    if e.key !in entries.vals && entries.keys != [] && |entries.keys| >= maxEntries {
      FirstDeleted(entries);
      var room := entries.Delete(entries.keys[0]);
      assert e.key !in room.vals;
    }
  }

  lemma FirstDeleted(entries: Entries)
    requires entries.Valid() && entries.keys != []
    ensures entries.Delete(entries.keys[0]).keys == entries.keys[1..]
  {
    assert entries.keys[0] in entries.keys;
    assert IndexOf(entries.keys, entries.keys[0]) == 0;
  }

  // --- what is counted --------------------------------------------------------

  /** What a lookup of a run returns. */
  function AnswerAt(c: Config, ops: seq<Op>, k: nat): Option<string>
    requires k < |ops| && ops[k].DoGet?
  {
    GetStep(c, Run(c, ops[..k]), ops[k].input, ops[k].allowedByPolicy, ops[k].now).1
  }

  function Served(c: Config, ops: seq<Op>): nat {
    if ops == [] then 0
    else Served(c, ops[..|ops| - 1]) + if ops[|ops| - 1].DoGet? && AnswerAt(c, ops, |ops| - 1).Some? then 1 else 0
  }

  function NotAsked(c: Config, ops: seq<Op>): nat {
    if ops == [] then 0
    else
      var op := ops[|ops| - 1];
      NotAsked(c, ops[..|ops| - 1]) + if op.DoGet? && !(c.policy.enabled && op.allowedByPolicy) then 1 else 0
  }

  function StoredSets(c: Config, ops: seq<Op>): nat {
    if ops == [] then 0
    else
      var op := ops[|ops| - 1];
      StoredSets(c, ops[..|ops| - 1])
      + if op.DoSet? && c.policy.enabled && op.stored.allowedByPolicy && |op.stored.value| <= c.policy.maxValueBytes
           && !(op.stored.containsPii && c.policy.skipWhenPiiDetected) then 1 else 0
  }

  /** The counters are what they say: lookups served, lookups not asked, the other lookups, and sets stored. */
  lemma {:induction false} CountersExactly(c: Config, ops: seq<Op>)
    ensures var m := Run(c, ops).metrics;
            && m.hits == Served(c, ops) && m.skipped == NotAsked(c, ops)
            && m.misses == Gets(ops) - Served(c, ops) - NotAsked(c, ops) && m.writes == StoredSets(c, ops)
  {
    LookupsAccounted(c, ops);
    if ops != [] {
      hide Step, Gets;
      CountersExactly(c, ops[..|ops| - 1]);
      StepCounts(c, Run(c, ops[..|ops| - 1]), ops[|ops| - 1]);
      hide GetStep, Run;
      assert Run(c, ops) == Step(c, Run(c, ops[..|ops| - 1]), ops[|ops| - 1]) by { RunStep(c, ops); }
    }
  }

  lemma RunStep(c: Config, ops: seq<Op>)
    requires ops != []
    ensures Run(c, ops) == Step(c, Run(c, ops[..|ops| - 1]), ops[|ops| - 1])
  {
    hide Step;
  }

  lemma StepCounts(c: Config, s: State, op: Op)
    requires s.entries.Valid()
    ensures var m, n := s.metrics, Step(c, s, op).metrics;
            && n.hits == m.hits + (if op.DoGet? && GetStep(c, s, op.input, op.allowedByPolicy, op.now).1.Some? then 1 else 0)
            && n.skipped == m.skipped + (if op.DoGet? && !(c.policy.enabled && op.allowedByPolicy) then 1 else 0)
            && n.writes == m.writes
               + (if op.DoSet? && c.policy.enabled && op.stored.allowedByPolicy && |op.stored.value| <= c.policy.maxValueBytes
                     && !(op.stored.containsPii && c.policy.skipWhenPiiDetected) then 1 else 0)
  {
    hide BuildCacheKey, StorePut, DeleteWhere, KeysWhere;
  }

  /** A hit credits what its entry saved, and counts on the entry; an expired entry is dropped by the lookup that finds it. */
  lemma LookupLeaves(c: Config, s: State, input: KeyInput, now: int)
    requires s.entries.Valid() && c.policy.enabled
    ensures var key := BuildCacheKey(c.sha256, input); var (t, r) := GetStep(c, s, input, true, now);
            if key !in s.entries.vals then t.entries == s.entries && t.metrics.evictions == s.metrics.evictions && r == None
            else
              var e := s.entries.vals[key];
              if e.expiresAt <= now then t.entries.vals == s.entries.vals - {key} && t.metrics.evictions == s.metrics.evictions + 1 && r == None
              else if e.organizationId != input.organizationId then t.entries.vals == s.entries.vals - {key} && r == None
              else
                r == Some(e.value) && t.metrics.savedCostCents == s.metrics.savedCostCents + e.savedCostCents
                && t.metrics.savedTokens == s.metrics.savedTokens + e.savedTokens
                && (e.key == key ==> t.entries.vals == s.entries.vals[key := e.(hits := e.hits + 1)])
  {
    hide BuildCacheKey;
  }

  /** What an invalidation or a purge drops, and that it counts each as an eviction. */
  lemma DropsExactly(c: Config, s: State, op: Op)
    requires s.entries.Valid() && (op.DoInvalidateOrganization? || op.DoInvalidateKind? || op.DoPurge?)
    ensures var t := Step(c, s, op);
            && (forall k :: k in t.entries.vals <==>
                  k in s.entries.vals
                  && match op
                     case DoInvalidateOrganization(org) => !StartsWith(k, "ai:" + (if org == None then "platform" else org.value) + ":")
                     case DoInvalidateKind(org, kind) =>
                       !StartsWith(k, "ai:" + (if org == None then "platform" else org.value) + ":"
                                      + (if kind == Completion then "completion" else if kind == Embedding then "embedding" else "prompt") + ":")
                     case DoPurge(now) => s.entries.vals[k].expiresAt > now
                     case _ => true)
            && (forall k :: k in t.entries.vals ==> t.entries.vals[k] == s.entries.vals[k])
            && t.metrics == s.metrics.(evictions := s.metrics.evictions + (s.entries.Size() - t.entries.Size()))
  {
    hide DeleteWhere, KeysWhere, StartsWith;
    match op
    case DoInvalidateOrganization(org) => DroppedCount(s.entries, HasPrefix(OrganizationPrefix(org)));
    case DoInvalidateKind(org, kind) => DroppedCount(s.entries, HasPrefix(KindPrefix(org, kind)));
    case DoPurge(now) => DroppedCount(s.entries, ExpiredBy(now));
    case _ =>
  }
}
