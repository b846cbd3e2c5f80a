/** Agent memory: scoped entries under a cap per subject, recalled by recency, forgotten on request. */
module AgentMemory {
  import opened Text
  import opened JsMap
  import opened Sorting

  datatype Scope = Conversation | Session | User | Organization | LongTerm {
    function DefaultTtlMs(): int {
      match this
      case Conversation => 24 * 60 * 60 * 1000
      case Session => 12 * 60 * 60 * 1000
      case User => 90 * 24 * 60 * 60 * 1000
      case Organization => 365 * 24 * 60 * 60 * 1000
      case LongTerm => 365 * 24 * 60 * 60 * 1000
    }
  }

  datatype Entry = Entry(
    id: string,
    scope: Scope,
    organizationId: Option<string>,
    userId: Option<string>,
    conversationId: Option<string>,
    sessionId: Option<string>,
    agentId: Option<string>,
    key: string,
    value: string,
    expiresAt: int,
    lastAccessedAt: int,
    accessCount: nat)

  type Entries = JsMap<string, Entry>

  /** An optional nullable argument: left out, or given as null or a string. */
  datatype Arg = Absent | Given(value: Option<string>)

  /** `search` answers whether a text contains what is looked for; always true when nothing is. */
  datatype Query = Query(
    organizationId: Option<string>,
    scopes: Option<seq<Scope>>,
    userId: Arg,
    conversationId: Arg,
    sessionId: Arg,
    agentId: Option<string>,
    search: string -> bool,
    limit: Option<int>)

  // --- the store --------------------------------------------------------------

  function Values(m: Entries): (xs: seq<Entry>)
    requires m.Valid()
    ensures |xs| == |m.keys| && forall i :: 0 <= i < |xs| ==> xs[i] == m.vals[m.keys[i]]
  {
    seq(|m.keys|, i requires 0 <= i < |m.keys| => m.vals[m.keys[i]])
  }

  /** The caller named the subject, and it is this one. */
  predicate Names(arg: Arg, id: Option<string>) { arg.Given? && id == arg.value }

  predicate SubjectVisible(q: Query, e: Entry) {
    match e.scope
    case User => Names(q.userId, e.userId)
    case LongTerm => Names(q.userId, e.userId)
    case Conversation => Names(q.conversationId, e.conversationId)
    case Session => Names(q.sessionId, e.sessionId)
    case Organization => true
  }

  predicate Visible(q: Query, e: Entry) {
    && e.organizationId == q.organizationId
    && (q.scopes.Some? ==> e.scope in q.scopes.value)
    && SubjectVisible(q, e)
    && (Truthy(q.agentId) && e.agentId.Some? ==> e.agentId == q.agentId)
    && (q.search(e.key) || q.search(e.value))
  }

  predicate Truthy(s: Option<string>) { s.Some? && s.value != "" }

  function VisibleTo(q: Query): Entry -> bool { (e: Entry) => Visible(q, e) }

  predicate RecentFirst(x: Entry, y: Entry) { x.lastAccessedAt >= y.lastAccessedAt }

  predicate OldestFirst(x: Entry, y: Entry) { x.lastAccessedAt <= y.lastAccessedAt }

  /** `xs.slice(0, n)`: a negative end counts from the back. */
  function Slice<T>(xs: seq<T>, n: int): (r: seq<T>)
    ensures |r| <= |xs| && r == xs[..|r|]
    ensures n >= 0 ==> |r| == if n <= |xs| then n else |xs|
  {
    if n > |xs| then xs else if n >= 0 then xs[..n] else if |xs| + n >= 0 then xs[..|xs| + n] else []
  }

  function Ranked(m: Entries, q: Query): seq<Entry>
    requires m.Valid()
  {
    StableSort(Filter(Values(m), VisibleTo(q)), RecentFirst)
  }

  function RunQuery(m: Entries, q: Query): seq<Entry>
    requires m.Valid()
  {
    Slice(Ranked(m, q), if q.limit.Some? then q.limit.value else 50)
  }

  lemma ValuesAre(m: Entries)
    requires m.Valid()
    ensures forall e :: e in Values(m) <==> exists k :: k in m.vals && m.vals[k] == e
  {
    var xs := Values(m);
    forall k | k in m.vals ensures m.vals[k] in xs {
      assert k in m.keys;
      var i :| 0 <= i < |m.keys| && m.keys[i] == k;
      assert xs[i] == m.vals[k];
    }
    assert forall i :: 0 <= i < |xs| ==> m.keys[i] in m.vals;
  }

  lemma RankedMeans(m: Entries, q: Query)
    requires m.Valid()
    ensures Ordered(Ranked(m, q), RecentFirst)
    ensures forall e :: e in Ranked(m, q) <==> e in Values(m) && Visible(q, e)
  {
    hide Filter, StableSort, Values, Visible;
    SortOrdered(Filter(Values(m), VisibleTo(q)), RecentFirst);
    assert forall e :: VisibleTo(q)(e) <==> Visible(q, e);
  }

  lemma QueryMeans(m: Entries, q: Query)
    requires m.Valid()
    ensures var xs := RunQuery(m, q); var limit := if q.limit.Some? then q.limit.value else 50;
            && (forall e :: e in xs ==> Visible(q, e) && exists k :: k in m.vals && m.vals[k] == e)
            && Ordered(xs, RecentFirst)
            && (limit >= 0 ==>
                  && |xs| <= limit
                  && forall k :: k in m.vals && Visible(q, m.vals[k]) && m.vals[k] !in xs ==>
                       |xs| == limit && forall x :: x in xs ==> x.lastAccessedAt >= m.vals[k].lastAccessedAt)
  {
    ValuesAre(m);
    RankedMeans(m, q);
    var ranked, xs := Ranked(m, q), RunQuery(m, q);
    assert xs == ranked[..|xs|];
    hide Ranked, Values, Visible, Slice;
    forall k, x | k in m.vals && Visible(q, m.vals[k]) && m.vals[k] !in xs && x in xs
      ensures x.lastAccessedAt >= m.vals[k].lastAccessedAt
    {
      CutComesAfter(ranked, |xs|, RecentFirst, x, m.vals[k]);
    }
    forall e | e in xs ensures e in ranked { }
  }

  function StoreDelete(m: Entries, id: string, organizationId: Option<string>): (r: Entries)
    requires m.Valid()
    ensures r.Valid()
  {
    if m.Has(id) && m.vals[id].organizationId == organizationId then m.Delete(id) else m
  }

  function InScope(organizationId: Option<string>, scope: Scope, conversationId: Option<string>,
                   sessionId: Option<string>, userId: Option<string>): (string, Entry) -> bool {
    (_, e: Entry) =>
      && e.organizationId == organizationId
      && e.scope == scope
      && (Truthy(conversationId) ==> e.conversationId == conversationId)
      && (Truthy(sessionId) ==> e.sessionId == sessionId)
      && (Truthy(userId) ==> e.userId == userId)
  }

  function ExpiredBy(now: int): (string, Entry) -> bool { (_, e: Entry) => e.expiresAt <= now }

  function Touched(e: Entry, now: int): Entry { e.(lastAccessedAt := now, accessCount := e.accessCount + 1) }

  function TouchAll(m: Entries, ids: seq<string>, now: int): (r: Entries)
    requires m.Valid()
    ensures r.Valid()
  {
    if ids == [] then m
    else
      var before, id := TouchAll(m, ids[..|ids| - 1], now), ids[|ids| - 1];
      if before.Has(id) then before.Set(id, Touched(before.vals[id], now)) else before
  }

  class InMemoryMemoryStore {
    var entries: Entries

    constructor ()
      ensures entries == Empty()
    {
      entries := Empty();
    }

    method Put(e: Entry)
      requires entries.Valid()
      modifies this
      ensures entries == old(entries).Set(e.id, e)
    {
      entries := entries.Set(e.id, e);
    }

    /** The entries the query may see, most recently used first, cut at its limit. */
    method Find(q: Query) returns (xs: seq<Entry>)
      requires entries.Valid()
      ensures xs == RunQuery(entries, q)
      ensures forall e :: e in xs ==> Visible(q, e) && exists k :: k in entries.vals && entries.vals[k] == e
      ensures Ordered(xs, RecentFirst)
      ensures var limit := if q.limit.Some? then q.limit.value else 50;
              limit >= 0 ==>
                && |xs| <= limit
                && forall k :: k in entries.vals && Visible(q, entries.vals[k]) && entries.vals[k] !in xs ==>
                     |xs| == limit && forall x :: x in xs ==> x.lastAccessedAt >= entries.vals[k].lastAccessedAt
    {
      QueryMeans(entries, q);
      xs := RunQuery(entries, q);
    }

    method Delete(id: string, organizationId: Option<string>) returns (removed: bool)
      requires entries.Valid()
      modifies this
      ensures entries == StoreDelete(old(entries), id, organizationId)
      ensures removed == (id in old(entries).vals && id !in entries.vals)
    {
      removed := entries.Has(id) && entries.vals[id].organizationId == organizationId;
      if removed { entries := entries.Delete(id); }
    }

    method DeleteScope(organizationId: Option<string>, scope: Scope, conversationId: Option<string>,
                       sessionId: Option<string>, userId: Option<string>) returns (removed: nat)
      requires entries.Valid()
      modifies this
      ensures entries == DeleteWhere(old(entries), InScope(organizationId, scope, conversationId, sessionId, userId))
      ensures removed == old(entries).Size() - entries.Size()
    {
      entries, removed := Sweep(entries, InScope(organizationId, scope, conversationId, sessionId, userId));
    }

    method PurgeExpired(now: int) returns (removed: nat)
      requires entries.Valid()
      modifies this
      ensures entries == DeleteWhere(old(entries), ExpiredBy(now))
      ensures removed == old(entries).Size() - entries.Size()
    {
      entries, removed := Sweep(entries, ExpiredBy(now));
    }

    method Touch(ids: seq<string>, now: int)
      requires entries.Valid()
      modifies this
      ensures entries == TouchAll(old(entries), ids, now)
    {
      for i := 0 to |ids|
        invariant entries == TouchAll(old(entries), ids[..i], now)
        invariant entries.Valid()
      {
        if entries.Has(ids[i]) { entries := entries.Set(ids[i], Touched(entries.vals[ids[i]], now)); }
        assert ids[..i + 1][..i] == ids[..i];
      }
      assert ids[..|ids|] == ids;
    }
  }

  // --- the service ------------------------------------------------------------

  datatype Policy = Policy(
    writableScopes: seq<Scope>,
    readableScopes: seq<Scope>,
    maxRecall: nat,
    maxEntriesPerScope: nat,
    rejectPii: bool)
  {
    predicate Valid() { 1 <= maxRecall <= 100 && 1 <= maxEntriesPerScope <= 1000 }
  }

  /** `fits` is the entry schema's length rules; `findsPii` the detector, when one is wired. */
  datatype Config = Config(policy: Policy, fits: Entry -> bool, findsPii: Option<string -> bool>)

  datatype NewMemory = NewMemory(
    scope: Scope,
    organizationId: Option<string>,
    userId: Option<string>,
    conversationId: Option<string>,
    sessionId: Option<string>,
    agentId: Option<string>,
    key: string,
    value: string,
    ttlMs: Option<int>)

  datatype Remembered = Stored(entry: Entry) | ScopeDenied | Unscoped | PersonalData | Invalid

  predicate HasIdentifier(scope: Scope, userId: Option<string>, conversationId: Option<string>, sessionId: Option<string>) {
    match scope
    case Conversation => Truthy(conversationId)
    case Session => Truthy(sessionId)
    case User => Truthy(userId)
    case LongTerm => Truthy(userId)
    case Organization => true
  }

  function EntryFor(i: NewMemory, id: string, now: int): Entry {
    Entry(id, i.scope, i.organizationId, i.userId, i.conversationId, i.sessionId, i.agentId, i.key, i.value,
          now + (if i.ttlMs.Some? then i.ttlMs.value else i.scope.DefaultTtlMs()), now, 0)
  }

  /** What `remember` answers, whatever the store holds. */
  function Verdict(c: Config, i: NewMemory, id: string, now: int): Remembered {
    if i.scope !in c.policy.writableScopes then ScopeDenied
    else if !HasIdentifier(i.scope, i.userId, i.conversationId, i.sessionId) then Unscoped
    else if c.policy.rejectPii && c.findsPii.Some? && c.findsPii.value(i.value) then PersonalData
    else if !c.fits(EntryFor(i, id, now)) then Invalid
    else Stored(EntryFor(i, id, now))
  }

  /** The lookup the cap is enforced over. */
  function SameSubject(e: Entry): Query {
    Query(e.organizationId, Some([e.scope]), Given(e.userId), Given(e.conversationId), Given(e.sessionId),
          None, _ => true, Some(1000))
  }

  function Oldest(existing: seq<Entry>, max: nat): (r: seq<Entry>)
    requires max >= 1
  {
    if |existing| < max then [] else StableSort(existing, OldestFirst)[..|existing| - max + 1]
  }

  /** What storing `e` evicts. */
  function Evicted(m: Entries, e: Entry, max: nat): seq<Entry>
    requires m.Valid() && max >= 1
  {
    Oldest(RunQuery(m, SameSubject(e)), max)
  }

  function DeleteEach(m: Entries, stale: seq<Entry>): (r: Entries)
    requires m.Valid()
    ensures r.Valid()
  {
    if stale == [] then m
    else
      var last := stale[|stale| - 1];
      StoreDelete(DeleteEach(m, stale[..|stale| - 1]), last.id, last.organizationId)
  }

  function RememberStep(c: Config, m: Entries, i: NewMemory, id: string, now: int): (r: Entries)
    requires m.Valid() && c.policy.Valid()
    ensures r.Valid()
  {
    match Verdict(c, i, id, now)
    case Stored(e) => DeleteEach(m, Evicted(m, e, c.policy.maxEntriesPerScope)).Set(e.id, e)
    case _ => m
  }

  datatype RecallInput = RecallInput(
    organizationId: Option<string>,
    userId: Arg,
    conversationId: Arg,
    sessionId: Arg,
    agentId: Option<string>,
    search: string -> bool,
    limit: Option<int>)

  function QueryFor(p: Policy, i: RecallInput): Query {
    Query(i.organizationId, Some(p.readableScopes), i.userId, i.conversationId, i.sessionId, i.agentId, i.search,
          Some(if i.limit.Some? then i.limit.value else p.maxRecall))
  }

  function LiveAt(now: int): Entry -> bool { (e: Entry) => e.expiresAt > now }

  function Recalled(p: Policy, m: Entries, i: RecallInput, now: int): seq<Entry>
    requires m.Valid()
  {
    Filter(RunQuery(m, QueryFor(p, i)), LiveAt(now))
  }

  function Ids(xs: seq<Entry>): (r: seq<string>)
    ensures |r| == |xs| && forall k :: 0 <= k < |xs| ==> r[k] == xs[k].id
  {
    seq(|xs|, k requires 0 <= k < |xs| => xs[k].id)
  }

  function RecallStep(p: Policy, m: Entries, i: RecallInput, now: int): (r: Entries)
    requires m.Valid()
    ensures r.Valid()
  {
    TouchAll(m, Ids(Recalled(p, m, i, now)), now)
  }

  function ForgetConversationStep(m: Entries, conversationId: string, organizationId: Option<string>): (r: Entries)
    requires m.Valid()
    ensures r.Valid()
  {
    DeleteWhere(m, InScope(organizationId, Conversation, Some(conversationId), None, None))
  }

  function ForgetUserStep(m: Entries, userId: string, organizationId: Option<string>): (r: Entries)
    requires m.Valid()
    ensures r.Valid()
  {
    DeleteWhere(DeleteWhere(m, InScope(organizationId, User, None, None, Some(userId))),
                InScope(organizationId, LongTerm, None, None, Some(userId)))
  }

  class MemoryService {
    const store: InMemoryMemoryStore
    const config: Config

    constructor (store: InMemoryMemoryStore, config: Config)
      ensures this.store == store && this.config == config
    {
      this.store := store;
      this.config := config;
    }

    method Remember(i: NewMemory, id: string, now: int) returns (r: Remembered)
      requires store.entries.Valid() && config.policy.Valid()
      modifies store
      ensures r == Verdict(config, i, id, now)
      ensures store.entries == RememberStep(config, old(store.entries), i, id, now)
    {
      hide Evicted, DeleteEach;
      if i.scope !in config.policy.writableScopes { return ScopeDenied; }
      if !HasIdentifier(i.scope, i.userId, i.conversationId, i.sessionId) { return Unscoped; }
      if config.policy.rejectPii && config.findsPii.Some? && config.findsPii.value(i.value) { return PersonalData; }
      var entry := EntryFor(i, id, now);
      if !config.fits(entry) { return Invalid; }
      EnforceScopeLimit(entry);
      store.Put(entry);
      return Stored(entry);
    }

    /** Makes room for one more entry of this subject, oldest first. */
    method EnforceScopeLimit(entry: Entry)
      requires store.entries.Valid() && config.policy.Valid()
      modifies store
      ensures store.entries == DeleteEach(old(store.entries), Evicted(old(store.entries), entry, config.policy.maxEntriesPerScope))
    {
      var existing := store.Find(SameSubject(entry));
      if |existing| < config.policy.maxEntriesPerScope { return; }
      var excess := Oldest(existing, config.policy.maxEntriesPerScope);
      hide RunQuery, Oldest;
      for k := 0 to |excess|
        invariant store.entries.Valid()
        invariant store.entries == DeleteEach(old(store.entries), excess[..k])
      {
        var _ := store.Delete(excess[k].id, excess[k].organizationId);
        assert excess[..k + 1][..k] == excess[..k];
      }
      assert excess[..|excess|] == excess;
    }

    method Recall(i: RecallInput, now: int) returns (live: seq<Entry>)
      requires store.entries.Valid()
      modifies store
      ensures live == Recalled(config.policy, old(store.entries), i, now)
      ensures store.entries == RecallStep(config.policy, old(store.entries), i, now)
    {
      var entries := store.Find(QueryFor(config.policy, i));
      live := Filter(entries, LiveAt(now));
      if |live| > 0 { store.Touch(Ids(live), now); }
    }

    method Forget(id: string, organizationId: Option<string>) returns (removed: bool)
      requires store.entries.Valid()
      modifies store
      ensures store.entries == StoreDelete(old(store.entries), id, organizationId)
      ensures removed == (id in old(store.entries).vals && id !in store.entries.vals)
    {
      removed := store.Delete(id, organizationId);
    }

    method ForgetUser(userId: string, organizationId: Option<string>) returns (removed: nat)
      requires store.entries.Valid()
      modifies store
      ensures store.entries == ForgetUserStep(old(store.entries), userId, organizationId)
      ensures removed == old(store.entries).Size() - store.entries.Size()
    {
      removed := 0;
      var n := store.DeleteScope(organizationId, User, None, None, Some(userId));
      removed := removed + n;
      n := store.DeleteScope(organizationId, LongTerm, None, None, Some(userId));
      removed := removed + n;
    }

    method ForgetConversation(conversationId: string, organizationId: Option<string>) returns (removed: nat)
      requires store.entries.Valid()
      modifies store
      ensures store.entries == ForgetConversationStep(old(store.entries), conversationId, organizationId)
      ensures removed == old(store.entries).Size() - store.entries.Size()
    {
      removed := store.DeleteScope(organizationId, Conversation, Some(conversationId), None, None);
    }

    method PurgeExpired(now: int) returns (removed: nat)
      requires store.entries.Valid()
      modifies store
      ensures store.entries == DeleteWhere(old(store.entries), ExpiredBy(now))
      ensures removed == old(store.entries).Size() - store.entries.Size()
    {
      removed := store.PurgeExpired(now);
    }
  }
}
