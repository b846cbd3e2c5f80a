/** What holds of agent memory over any run: the cap, eviction by age, isolation, and being forgotten. */
module AgentMemoryRuns {
  import opened Text
  import opened JsMap
  import opened Sorting
  import opened AgentMemory

  /** Whom an entry is about: the tenant, the scope, and the identifier that scope goes by. */
  datatype Subject = Subject(organizationId: Option<string>, scope: Scope, identifier: Option<string>)

  function SubjectOf(e: Entry): Subject {
    Subject(e.organizationId, e.scope,
            match e.scope
            case User => e.userId
            case LongTerm => e.userId
            case Conversation => e.conversationId
            case Session => e.sessionId
            case Organization => None)
  }

  /** The ids stored for a subject. */
  function Members(m: Entries, s: Subject): set<string> { set k | k in m.vals && SubjectOf(m.vals[k]) == s }

  ghost predicate Keyed(m: Entries) { m.Valid() && forall k :: k in m.vals ==> m.vals[k].id == k }

  ghost predicate Bounded(m: Entries, max: nat) { forall s :: |Members(m, s)| <= max }

  ghost predicate WellScoped(m: Entries) {
    forall k :: k in m.vals ==>
      var e := m.vals[k]; HasIdentifier(e.scope, e.userId, e.conversationId, e.sessionId)
  }

  function IdSet(xs: seq<Entry>): set<string> { set x | x in xs :: x.id }

  predicate DifferentIds(x: Entry, y: Entry) { x.id != y.id }

  // --- what a query returns ---------------------------------------------------

  lemma {:induction false} DistinctSize(xs: seq<Entry>)
    requires Ordered(xs, DifferentIds)
    ensures |IdSet(xs)| == |xs|
  {
    if xs != [] {
      var front, last := xs[..|xs| - 1], xs[|xs| - 1];
      DistinctSize(front);
      forall x | x in front ensures x.id != last.id {
        var i :| 0 <= i < |front| && front[i] == x;
        assert DifferentIds(xs[i], xs[|xs| - 1]);
      }
      assert xs == front + [last];
      IdSetAppend(front, last);
    }
  }

  lemma RankedApart(m: Entries, q: Query)
    requires Keyed(m)
    ensures Ordered(Ranked(m, q), DifferentIds) && Ordered(RunQuery(m, q), DifferentIds)
  {
    var xs := Values(m);
    forall i, j | 0 <= i < j < |xs| ensures DifferentIds(xs[i], xs[j]) {
      assert m.keys[i] in m.vals && m.keys[j] in m.vals;
    }
    FilterPairwise(xs, VisibleTo(q), DifferentIds);
    hide Filter, StableSort;
    SortPairwise(Filter(xs, VisibleTo(q)), RecentFirst, DifferentIds);
  }

  lemma RankedContents(m: Entries, q: Query)
    requires Keyed(m)
    ensures forall x :: x in Ranked(m, q) <==> x.id in m.vals && m.vals[x.id] == x && Visible(q, x)
  {
    ValuesAre(m);
    RankedMeans(m, q);
    hide Ranked, Values, Visible;
    forall x ensures x in Values(m) <==> x.id in m.vals && m.vals[x.id] == x {
      if x in Values(m) { var k :| k in m.vals && m.vals[k] == x; }
    }
  }

  lemma RankedByRecency(m: Entries, q: Query)
    requires m.Valid()
    ensures Ordered(Ranked(m, q), RecentFirst)
  {
    RankedMeans(m, q);
  }

  // --- making room ------------------------------------------------------------

  lemma SameSubjectSelects(e: Entry, x: Entry)
    ensures Visible(SameSubject(e), x) <==> SubjectOf(x) == SubjectOf(e)
  {
  }

  /** The lookup behind the cap finds every entry of the subject, up to its own limit. */
  lemma ExistingAreMembers(m: Entries, e: Entry)
    requires Keyed(m) && |Members(m, SubjectOf(e))| <= 1000
    ensures var existing := RunQuery(m, SameSubject(e));
            && Ordered(existing, DifferentIds)
            && |existing| == |Members(m, SubjectOf(e))|
            && IdSet(existing) == Members(m, SubjectOf(e))
            && forall x :: x in existing ==> x.id in m.vals && m.vals[x.id] == x
  {
    hide Ranked, Visible, SubjectOf;
    var ranked := Ranked(m, SameSubject(e));
    RankedApart(m, SameSubject(e));
    RankedContents(m, SameSubject(e));
    forall x ensures Visible(SameSubject(e), x) <==> SubjectOf(x) == SubjectOf(e) { SameSubjectSelects(e, x); }
    DistinctSize(ranked);
    assert IdSet(ranked) == Members(m, SubjectOf(e)) by {
      forall k | k in Members(m, SubjectOf(e)) ensures k in IdSet(ranked) { assert m.vals[k] in ranked; }
    }
  }

  /** The oldest are taken: as many as it takes to leave room for one, none younger than what stays. */
  lemma OldestGo(existing: seq<Entry>, max: nat)
    requires max >= 1 && Ordered(existing, DifferentIds)
    ensures var gone := Oldest(existing, max);
            && |gone| == (if |existing| < max then 0 else |existing| - max + 1)
            && Ordered(gone, DifferentIds)
            && (forall x :: x in gone ==> x in existing)
            && (forall x, y :: x in gone && y in existing && y !in gone ==> x.lastAccessedAt <= y.lastAccessedAt)
  {
    if |existing| >= max {
      var sorted, cut := StableSort(existing, OldestFirst), |existing| - max + 1;
      SortPairwise(existing, OldestFirst, DifferentIds);
      SortOrdered(existing, OldestFirst);
      hide StableSort;
      forall x, y | x in sorted[..cut] && y in existing && y !in sorted[..cut] ensures x.lastAccessedAt <= y.lastAccessedAt {
        CutComesAfter(sorted, cut, OldestFirst, x, y);
      }
    }
  }

  lemma StoreDeleteDeletes(m: Entries, before: Entries, gone: set<string>, e: Entry)
    requires before.Valid() && before.vals == m.vals - gone && e.id in m.vals && m.vals[e.id] == e
    ensures StoreDelete(before, e.id, e.organizationId).vals == m.vals - (gone + {e.id})
  {
  }

  lemma {:induction false} DeleteEachDeletes(m: Entries, stale: seq<Entry>)
    requires Keyed(m) && forall x :: x in stale ==> x.id in m.vals && m.vals[x.id] == x
    ensures DeleteEach(m, stale).vals == m.vals - IdSet(stale)
  {
    if stale == [] {
      assert m.vals - {} == m.vals;
    } else {
      hide StoreDelete, Keyed;
      var front, last := stale[..|stale| - 1], stale[|stale| - 1];
      assert last in stale && forall x :: x in front ==> x in stale;
      DeleteEachDeletes(m, front);
      StoreDeleteDeletes(m, DeleteEach(m, front), IdSet(front), last);
      IdSetAppend(front, last);
      assert stale == front + [last];
    }
  }

  lemma IdSetAppend(xs: seq<Entry>, x: Entry)
    ensures IdSet(xs + [x]) == IdSet(xs) + {x.id}
  {
  }

  /** What storing an entry does to the store, and which entries make room for it. */
  ghost predicate MakesRoom(m: Entries, r: Entries, e: Entry, max: nat, gone: set<string>) {
    var members := Members(m, SubjectOf(e));
    && r.vals == (m.vals - gone)[e.id := e]
    && gone <= members
    && |gone| == (if |members| < max then 0 else |members| - max + 1)
    && forall j, k :: j in gone && k in members - gone ==> m.vals[j].lastAccessedAt <= m.vals[k].lastAccessedAt
  }

  /** Only entries of the same subject make room, the least recently used, and no more than needed. */
  lemma RememberEvictsOldest(c: Config, m: Entries, i: NewMemory, id: string, now: int)
    requires Keyed(m) && c.policy.Valid() && Verdict(c, i, id, now).Stored?
    requires |Members(m, SubjectOf(EntryFor(i, id, now)))| <= 1000
    ensures exists gone :: MakesRoom(m, RememberStep(c, m, i, id, now), EntryFor(i, id, now), c.policy.maxEntriesPerScope, gone)
  {
    var e, max := EntryFor(i, id, now), c.policy.maxEntriesPerScope;
    assert RememberStep(c, m, i, id, now) == DeleteEach(m, Evicted(m, e, max)).Set(e.id, e);
    hide RememberStep, Verdict, EntryFor, SubjectOf, RunQuery, Oldest, DeleteEach;
    var existing := RunQuery(m, SameSubject(e));
    ExistingAreMembers(m, e);
    OldestGo(existing, max);
    var stale := Oldest(existing, max);
    DistinctSize(stale);
    DeleteEachDeletes(m, stale);
    var gone, members := IdSet(stale), Members(m, SubjectOf(e));
    assert gone <= members by { assert forall x :: x in existing ==> x.id in IdSet(existing); }
    forall j, k | j in gone && k in members - gone ensures m.vals[j].lastAccessedAt <= m.vals[k].lastAccessedAt {
      assert m.vals[j] in stale;
      assert m.vals[k] in existing by { assert k in IdSet(existing); }
      assert m.vals[k] !in stale;
    }
    assert MakesRoom(m, RememberStep(c, m, i, id, now), e, max, gone);
  }

  /** Afterwards the subject holds one more, or exactly its cap, and every other entry is as it was. */
  lemma RememberKeepsOthers(m: Entries, r: Entries, e: Entry, max: nat, gone: set<string>)
    requires MakesRoom(m, r, e, max, gone) && |Members(m, SubjectOf(e))| <= max && e.id !in m.vals
    ensures |Members(r, SubjectOf(e))| == if |Members(m, SubjectOf(e))| < max then |Members(m, SubjectOf(e))| + 1 else max
    ensures forall k :: k in m.vals && SubjectOf(m.vals[k]) != SubjectOf(e) ==> k in r.vals && r.vals[k] == m.vals[k]
    ensures forall s :: s != SubjectOf(e) ==> Members(r, s) == Members(m, s)
  {
    hide SubjectOf;
    var members := Members(m, SubjectOf(e));
    assert Members(r, SubjectOf(e)) == (members - gone) + {e.id} && e.id !in members;
    forall k | k in m.vals && SubjectOf(m.vals[k]) != SubjectOf(e) ensures k in r.vals && r.vals[k] == m.vals[k] {
      assert k !in gone;
    }
    forall s | s != SubjectOf(e) ensures Members(r, s) == Members(m, s) {
    }
  }

  // --- any run ----------------------------------------------------------------

  datatype Op =
    | DoRemember(i: NewMemory, id: string, now: int)
    | DoRecall(input: RecallInput, now: int)
    | DoForget(id: string, organizationId: Option<string>)
    | DoForgetConversation(conversationId: string, organizationId: Option<string>)
    | DoForgetUser(userId: string, organizationId: Option<string>)
    | DoPurge(now: int)

  function Step(c: Config, m: Entries, op: Op): (r: Entries)
    requires m.Valid() && c.policy.Valid()
    ensures r.Valid()
  {
    match op
    case DoRemember(i, id, now) => RememberStep(c, m, i, id, now)
    case DoRecall(input, now) => RecallStep(c.policy, m, input, now)
    case DoForget(id, org) => StoreDelete(m, id, org)
    case DoForgetConversation(conversationId, org) => ForgetConversationStep(m, conversationId, org)
    case DoForgetUser(userId, org) => ForgetUserStep(m, userId, org)
    case DoPurge(now) => DeleteWhere(m, ExpiredBy(now))
  }

  function Run(c: Config, ops: seq<Op>): (r: Entries)
    requires c.policy.Valid()
    ensures r.Valid()
  {
    if ops == [] then Empty() else Step(c, Run(c, ops[..|ops| - 1]), ops[|ops| - 1])
  }

  ghost predicate Invariant(c: Config, m: Entries) {
    Keyed(m) && WellScoped(m) && Bounded(m, c.policy.maxEntriesPerScope)
  }

  /** Dropping entries keeps everything. */
  lemma DroppingKeeps(c: Config, m: Entries, r: Entries)
    requires Invariant(c, m) && r.Valid()
    requires forall k :: k in r.vals ==> k in m.vals && r.vals[k] == m.vals[k]
    ensures Invariant(c, r)
  {
    hide SubjectOf, HasIdentifier;
    forall s ensures |Members(r, s)| <= c.policy.maxEntriesPerScope {
      assert Members(r, s) <= Members(m, s);
      SubsetSize(Members(r, s), Members(m, s));
    }
  }

  lemma {:induction false} SubsetSize<T>(a: set<T>, b: set<T>)
    requires a <= b
    ensures |a| <= |b|
  {
    assert b == a + (b - a);
  }

  /** Entries about the same subjects under the same ids. */
  ghost predicate SameShape(m: Entries, r: Entries) {
    && r.vals.Keys == m.vals.Keys
    && forall k :: k in m.vals ==>
         exists at: int, n: nat :: r.vals[k] == m.vals[k].(lastAccessedAt := at, accessCount := n)
  }

  lemma TouchKeepsShape(m: Entries, before: Entries, id: string, now: int)
    requires before.Valid() && SameShape(m, before) && id in before.vals
    ensures SameShape(m, before.Set(id, Touched(before.vals[id], now)))
  {
    var r := before.Set(id, Touched(before.vals[id], now));
    forall k | k in m.vals
      ensures exists at: int, n: nat :: r.vals[k] == m.vals[k].(lastAccessedAt := at, accessCount := n)
    {
      var at: int, n: nat :| before.vals[k] == m.vals[k].(lastAccessedAt := at, accessCount := n);
      assert r.vals[k] == if k == id then m.vals[k].(lastAccessedAt := now, accessCount := n + 1) else before.vals[k];
    }
  }

  lemma {:induction false} TouchingKeepsShape(m: Entries, ids: seq<string>, now: int)
    requires m.Valid()
    ensures SameShape(m, TouchAll(m, ids, now))
  {
    if ids == [] {
      forall k | k in m.vals
        ensures exists at: int, n: nat :: m.vals[k] == m.vals[k].(lastAccessedAt := at, accessCount := n)
      {
        var e := m.vals[k];
        assert e == e.(lastAccessedAt := e.lastAccessedAt, accessCount := e.accessCount);
      }
    } else {
      var front, id := ids[..|ids| - 1], ids[|ids| - 1];
      TouchingKeepsShape(m, front, now);
      hide SameShape;
      if TouchAll(m, front, now).Has(id) { TouchKeepsShape(m, TouchAll(m, front, now), id, now); }
    }
  }

  lemma SameShapeKeeps(c: Config, m: Entries, r: Entries)
    requires Invariant(c, m) && r.Valid() && SameShape(m, r)
    ensures Invariant(c, r)
  {
    forall k | k in m.vals ensures r.vals[k].id == k && SubjectOf(r.vals[k]) == SubjectOf(m.vals[k])
      ensures var e := r.vals[k]; HasIdentifier(e.scope, e.userId, e.conversationId, e.sessionId)
    {
      var at: int, n: nat :| r.vals[k] == m.vals[k].(lastAccessedAt := at, accessCount := n);
    }
    hide SubjectOf, HasIdentifier;
    forall s ensures |Members(r, s)| <= c.policy.maxEntriesPerScope { assert Members(r, s) == Members(m, s); }
  }

  lemma RoomKeepsBound(m: Entries, r: Entries, e: Entry, max: nat, gone: set<string>)
    requires MakesRoom(m, r, e, max, gone) && Bounded(m, max) && max >= 1
    ensures Bounded(r, max)
  {
    forall s ensures |Members(r, s)| <= max {
      var members := Members(m, s);
      assert |members| <= max;
      hide Bounded, SubjectOf;
      var room := if s == SubjectOf(e) then (members - gone) + {e.id} else members;
      assert |room| <= max;
      assert Members(r, s) <= room;
      SubsetSize(Members(r, s), room);
    }
  }

  lemma RoomKeepsEntries(m: Entries, r: Entries, e: Entry, gone: set<string>)
    requires Keyed(m) && WellScoped(m) && r.Valid() && r.vals == (m.vals - gone)[e.id := e]
    requires HasIdentifier(e.scope, e.userId, e.conversationId, e.sessionId)
    ensures Keyed(r) && WellScoped(r)
  {
    hide HasIdentifier;
  }

  lemma RememberKeeps(c: Config, m: Entries, i: NewMemory, id: string, now: int)
    requires Invariant(c, m) && c.policy.Valid()
    ensures Invariant(c, RememberStep(c, m, i, id, now))
  {
    if Verdict(c, i, id, now).Stored? {
      var e, r, max := EntryFor(i, id, now), RememberStep(c, m, i, id, now), c.policy.maxEntriesPerScope;
      assert HasIdentifier(e.scope, e.userId, e.conversationId, e.sessionId) && e.id == id;
      hide EntryFor, Verdict, RememberStep, SubjectOf, HasIdentifier, Members, Keyed, WellScoped;
      assert |Members(m, SubjectOf(e))| <= max;
      RememberEvictsOldest(c, m, i, id, now);
      var gone :| MakesRoom(m, r, e, max, gone);
      RoomKeepsBound(m, r, e, max, gone);
      hide Bounded, Keyed, WellScoped;
      RoomKeepsEntries(m, r, e, gone);
    }
  }

  lemma StepKeeps(c: Config, m: Entries, op: Op)
    requires Invariant(c, m) && c.policy.Valid()
    ensures Invariant(c, Step(c, m, op))
  {
    assert m.Valid();
    hide Invariant, RememberStep, RecallStep;
    match op
    case DoRemember(i, id, now) => RememberKeeps(c, m, i, id, now);
    case DoRecall(input, now) => RecallKeeps(c, m, input, now);
    case _ => DroppingKeeps(c, m, Step(c, m, op));
  }

  lemma RecallKeeps(c: Config, m: Entries, i: RecallInput, now: int)
    requires Invariant(c, m)
    ensures Invariant(c, RecallStep(c.policy, m, i, now))
  {
    hide TouchAll, Recalled;
    TouchingKeepsShape(m, Ids(Recalled(c.policy, m, i, now)), now);
    SameShapeKeeps(c, m, RecallStep(c.policy, m, i, now));
  }

  /** After any run no subject holds more than the cap, and every scoped entry names its subject. */
  lemma {:induction false} RunInvariant(c: Config, ops: seq<Op>)
    requires c.policy.Valid()
    ensures Invariant(c, Run(c, ops))
  {
    if ops == [] {
      forall s ensures |Members(Run(c, ops), s)| <= c.policy.maxEntriesPerScope { assert Members(Run(c, ops), s) == {}; }
    } else {
      hide Invariant, Step;
      RunInvariant(c, ops[..|ops| - 1]);
      StepKeeps(c, Run(c, ops[..|ops| - 1]), ops[|ops| - 1]);
    }
  }

  // --- recall -----------------------------------------------------------------

  /**
   * Nothing crosses a boundary: what is recalled is stored, unexpired, of the caller's tenant, in a
   * readable scope, and about a subject the caller named. It comes most recently used first.
   */
  lemma RecallIsolated(c: Config, ops: seq<Op>, i: RecallInput, now: int)
    requires c.policy.Valid()
    ensures var m := Run(c, ops);
            && Ordered(Recalled(c.policy, m, i, now), RecentFirst)
            && forall e :: e in Recalled(c.policy, m, i, now) ==>
                 && e.id in m.vals && m.vals[e.id] == e && e.expiresAt > now
                 && e.organizationId == i.organizationId && e.scope in c.policy.readableScopes
                 && (e.scope.User? || e.scope.LongTerm? ==> i.userId == Given(e.userId) && Truthy(e.userId))
                 && (e.scope.Conversation? ==> i.conversationId == Given(e.conversationId) && Truthy(e.conversationId))
                 && (e.scope.Session? ==> i.sessionId == Given(e.sessionId) && Truthy(e.sessionId))
  {
    var m := Run(c, ops);
    RunInvariant(c, ops);
    hide Run, Bounded, Recalled;
    RecalledAre(c.policy, m, i, now);
    forall e | e in Recalled(c.policy, m, i, now)
      ensures HasIdentifier(e.scope, e.userId, e.conversationId, e.sessionId)
    {
      assert e == m.vals[e.id];
    }
  }

  lemma RecalledAre(p: Policy, m: Entries, i: RecallInput, now: int)
    requires Keyed(m)
    ensures Ordered(Recalled(p, m, i, now), RecentFirst)
    ensures forall e :: e in Recalled(p, m, i, now) ==>
              e.id in m.vals && m.vals[e.id] == e && Visible(QueryFor(p, i), e) && e.expiresAt > now
  {
    var q := QueryFor(p, i);
    RankedContents(m, q);
    RankedByRecency(m, q);
    FirstAreRanked(m, q);
    hide Ranked, Filter, RunQuery, Visible, Keyed;
    FilterPairwise(RunQuery(m, q), LiveAt(now), RecentFirst);
    hide Ordered;
  }

  lemma FirstAreRanked(m: Entries, q: Query)
    requires m.Valid() && Ordered(Ranked(m, q), RecentFirst)
    ensures Ordered(RunQuery(m, q), RecentFirst) && forall e :: e in RunQuery(m, q) ==> e in Ranked(m, q)
  {
    hide Ranked;
  }

  /**
   * A live entry the caller may see is left out only when the limit is filled by entries at least
   * as recently used.
   */
  lemma RecallMissesOnlyOlder(p: Policy, m: Entries, i: RecallInput, now: int, e: Entry)
    requires Keyed(m) && (i.limit.Some? ==> i.limit.value >= 0)
    requires e.id in m.vals && m.vals[e.id] == e && Visible(QueryFor(p, i), e) && e.expiresAt > now
    requires e !in Recalled(p, m, i, now)
    ensures var first := RunQuery(m, QueryFor(p, i));
            && |first| == (if i.limit.Some? then i.limit.value else p.maxRecall)
            && forall x :: x in first ==> x.lastAccessedAt >= e.lastAccessedAt
  {
    var q := QueryFor(p, i);
    RankedContents(m, q);
    RankedByRecency(m, q);
    hide Ranked, Filter, Visible;
    var ranked, first := Ranked(m, q), RunQuery(m, q);
    assert first == ranked[..|first|];
    assert e in ranked && e !in first;
    hide RunQuery;
    forall x | x in first ensures x.lastAccessedAt >= e.lastAccessedAt {
      CutComesAfter(ranked, |first|, RecentFirst, x, e);
    }
  }

  /** Filtering what is within a limit is limiting what a filter keeps, only so. */
  lemma FilterThenCut(xs: seq<Entry>, n: nat, p: Entry -> bool)
    requires n <= |xs|
    ensures Filter(xs[..n], p) == Slice(Filter(xs, p), n)
            <==> (forall i :: 0 <= i < n ==> p(xs[i])) || (forall i :: n <= i < |xs| ==> !p(xs[i]))
  {
    hide Filter, Slice;
    assert xs == xs[..n] + xs[n..];
    FilterConcat(xs[..n], xs[n..], p);
    FilterFull(xs[..n], p);
    FilterEmpty(xs[n..], p);
    CutAtBoundary(Filter(xs[..n], p), Filter(xs[n..], p), n);
    NonePast(xs, n, p);
  }

  lemma NonePast(xs: seq<Entry>, n: nat, p: Entry -> bool)
    requires n <= |xs|
    ensures (forall i :: 0 <= i < |xs[n..]| ==> !p(xs[n..][i])) <==> (forall i :: n <= i < |xs| ==> !p(xs[i]))
  {
    assert forall i :: n <= i < |xs| ==> xs[i] == xs[n..][i - n];
  }

  lemma CutAtBoundary(first: seq<Entry>, rest: seq<Entry>, n: nat)
    requires |first| <= n
    ensures first == Slice(first + rest, n) <==> |first| == n || |rest| == 0
  {
    if |rest| == 0 { assert first + rest == first; }
  }

  /** A recall's limit. */
  function LimitOf(p: Policy, i: RecallInput): int { if i.limit.Some? then i.limit.value else p.maxRecall }

  /**
   * After any run a recall returns the most recent live memories it may see, up to its limit, exactly
   * when everything within the limit is live or nothing past it is: the dead take up places.
   */
  lemma RecallExactly(c: Config, ops: seq<Op>, i: RecallInput, now: int)
    requires c.policy.Valid() && LimitOf(c.policy, i) >= 0
    ensures var m := Run(c, ops); var ranked := Ranked(m, QueryFor(c.policy, i)); var limit := LimitOf(c.policy, i);
            Recalled(c.policy, m, i, now) == Slice(Filter(ranked, LiveAt(now)), limit)
            <==> (forall j :: 0 <= j < |ranked| && j < limit ==> ranked[j].expiresAt > now)
                 || (forall j :: limit <= j < |ranked| ==> ranked[j].expiresAt <= now)
  {
    var ranked, limit := Ranked(Run(c, ops), QueryFor(c.policy, i)), LimitOf(c.policy, i);
    hide Run, Ranked, Filter;
    if limit <= |ranked| {
      FilterThenCut(ranked, limit, LiveAt(now));
    }
  }

  lemma RecentComesFirst(m: Entries, q: Query, x: Entry, y: Entry)
    requires Keyed(m) && m.vals == map[x.id := x, y.id := y] && x.id != y.id && q.limit == Some(1)
    requires Visible(q, x) && Visible(q, y) && y.lastAccessedAt > x.lastAccessedAt
    ensures RunQuery(m, q) == [y]
  {
    RankedContents(m, q);
    RankedByRecency(m, q);
    var ranked := Ranked(m, q);
    hide Ranked, Visible, Keyed;
    assert x in ranked && y in ranked;
    var a :| 0 <= a < |ranked| && ranked[a] == x;
    assert ranked[0] != x by {
      var b :| 0 <= b < |ranked| && ranked[b] == y;
      assert b > 0 ==> RecentFirst(ranked[0], ranked[b]);
    }
    assert ranked[0] in ranked;
  }

  /** Expired entries still take up the limit: a live memory is crowded out by a more recent dead one. */
  lemma DeadCrowdOutLive(p: Policy, m: Entries, i: RecallInput, now: int, live: Entry, dead: Entry)
    requires Keyed(m) && m.vals == map[live.id := live, dead.id := dead] && live.id != dead.id && i.limit == Some(1)
    requires Visible(QueryFor(p, i), live) && Visible(QueryFor(p, i), dead)
    requires live.expiresAt > now >= dead.expiresAt && dead.lastAccessedAt > live.lastAccessedAt
    ensures Recalled(p, m, i, now) == []
  {
    hide Visible, Keyed;
    RecentComesFirst(m, QueryFor(p, i), live, dead);
    hide RunQuery;
    FilterAppend([], dead, LiveAt(now));
    assert [] + [dead] == [dead];
  }

  // A store that two calls reach, and a recall that misses its one live entry.

  function Facts(): Config {
    Config(Policy([Organization], [Organization], 10, 100, false), (_: Entry) => true, None)
  }

  function Fact(ttlMs: int): NewMemory { NewMemory(Organization, None, None, None, None, None, "k", "v", Some(ttlMs)) }

  function TwoFacts(): seq<Op> { [DoRemember(Fact(100), "a", 1), DoRemember(Fact(3), "b", 2)] }

  function AnyFact(): RecallInput { RecallInput(None, Absent, Absent, Absent, None, _ => true, Some(1)) }

  lemma RoomToSpare(c: Config, m: Entries, i: NewMemory, id: string, now: int)
    requires m.Valid() && c.policy.Valid() && m.Size() < c.policy.maxEntriesPerScope && Verdict(c, i, id, now).Stored?
    ensures RememberStep(c, m, i, id, now) == m.Set(id, EntryFor(i, id, now))
  {
    hide Filter, StableSort;
    var e := EntryFor(i, id, now);
    assert |Ranked(m, SameSubject(e))| <= |Values(m)|;
    assert Evicted(m, e, c.policy.maxEntriesPerScope) == [];
  }

  lemma TwoFactsReached()
    ensures Run(Facts(), TwoFacts()).vals == map["a" := EntryFor(Fact(100), "a", 1), "b" := EntryFor(Fact(3), "b", 2)]
  {
    var c, ops := Facts(), TwoFacts();
    assert ops[..1] == [ops[0]] && ops[..1][..0] == [];
    RoomToSpare(c, Empty(), Fact(100), "a", 1);
    var one := Empty<string, Entry>().Set("a", EntryFor(Fact(100), "a", 1));
    RoomToSpare(c, one, Fact(3), "b", 2);
    hide RememberStep;
    assert Run(c, ops[..1]) == one;
    assert Run(c, ops) == one.Set("b", EntryFor(Fact(3), "b", 2));
  }

  lemma FactsVisible()
    ensures var live, dead := EntryFor(Fact(100), "a", 1), EntryFor(Fact(3), "b", 2); var q := QueryFor(Facts().policy, AnyFact());
            && Visible(q, live) && Visible(q, dead) && live.id != dead.id
            && live.expiresAt > 50 >= dead.expiresAt && dead.lastAccessedAt > live.lastAccessedAt
  {
    assert "a"[0] != "b"[0];
  }

  /** Reached by a run: one live memory is stored and visible, one may be recalled, and none is. */
  lemma DeadCrowdOutLiveReachably()
    ensures var m, live := Run(Facts(), TwoFacts()), EntryFor(Fact(100), "a", 1);
            && live.id in m.vals && m.vals[live.id] == live && live.expiresAt > 50
            && Visible(QueryFor(Facts().policy, AnyFact()), live)
            && LimitOf(Facts().policy, AnyFact()) == 1 && Recalled(Facts().policy, m, AnyFact(), 50) == []
  {
    TwoFactsReached();
    RunInvariant(Facts(), TwoFacts());
    FactsVisible();
    hide Run, Visible, Bounded, WellScoped, Recalled, QueryFor;
    var live, dead := EntryFor(Fact(100), "a", 1), EntryFor(Fact(3), "b", 2);
    DeadCrowdOutLive(Facts().policy, Run(Facts(), TwoFacts()), AnyFact(), 50, live, dead);
  }

  // --- being forgotten --------------------------------------------------------

  predicate AboutUser(e: Entry, userId: string, organizationId: Option<string>) {
    e.organizationId == organizationId && (e.scope.User? || e.scope.LongTerm?) && e.userId == Some(userId)
  }

  /** What is forgotten is the person's user and long-term memories, and nothing else. */
  ghost predicate ForgetsExactly(m: Entries, userId: string, organizationId: Option<string>)
    requires m.Valid()
  {
    var r := ForgetUserStep(m, userId, organizationId);
    forall k :: k in m.vals ==> (k in r.vals <==> !AboutUser(m.vals[k], userId, organizationId))
  }

  lemma WhoIsForgotten(m: Entries, userId: string, organizationId: Option<string>)
    requires m.Valid()
    ensures var r := ForgetUserStep(m, userId, organizationId);
            && (forall k :: k in r.vals <==>
                  (k in m.vals
                   && !(m.vals[k].organizationId == organizationId && (m.vals[k].scope.User? || m.vals[k].scope.LongTerm?)
                        && (userId == "" || m.vals[k].userId == Some(userId)))))
            && forall k :: k in r.vals ==> r.vals[k] == m.vals[k]
  {
    hide DeleteWhere;
  }

  /** A memory that names the person survives the request exactly in the other three scopes. */
  lemma NamedElsewhereSurvives(m: Entries, userId: string, organizationId: Option<string>, id: string)
    requires m.Valid() && id in m.vals && m.vals[id].organizationId == organizationId && m.vals[id].userId == Some(userId)
    ensures id in ForgetUserStep(m, userId, organizationId).vals
            <==> m.vals[id].scope in {Conversation, Session, Organization}
  {
    WhoIsForgotten(m, userId, organizationId);
    hide ForgetUserStep;
  }

  /**
   * In every reachable state that is so exactly when a user id is given, or the tenant has no user
   * memories at all: an empty id takes everybody's.
   */
  lemma ForgetUserExact(c: Config, ops: seq<Op>, userId: string, organizationId: Option<string>)
    requires c.policy.Valid()
    ensures var m := Run(c, ops);
            ForgetsExactly(m, userId, organizationId) <==>
              userId != "" || forall k :: k in m.vals && m.vals[k].organizationId == organizationId ==>
                                !m.vals[k].scope.User? && !m.vals[k].scope.LongTerm?
    ensures forall k :: k in ForgetUserStep(Run(c, ops), userId, organizationId).vals ==>
              ForgetUserStep(Run(c, ops), userId, organizationId).vals[k] == Run(c, ops).vals[k]
  {
    RunInvariant(c, ops);
    hide Run, ForgetUserStep, Bounded, WellScoped, ForgetsExactly;
    ForgetsIff(Run(c, ops), userId, organizationId);
  }

  lemma ForgetsIff(m: Entries, userId: string, organizationId: Option<string>)
    requires m.Valid() && WellScoped(m)
    ensures ForgetsExactly(m, userId, organizationId) <==>
              userId != "" || forall k :: k in m.vals && m.vals[k].organizationId == organizationId ==>
                                !m.vals[k].scope.User? && !m.vals[k].scope.LongTerm?
    ensures forall k :: k in ForgetUserStep(m, userId, organizationId).vals ==>
              ForgetUserStep(m, userId, organizationId).vals[k] == m.vals[k]
  {
    WhoIsForgotten(m, userId, organizationId);
    NobodyIsUnnamed(m, organizationId);
    hide ForgetUserStep, WellScoped;
    if userId == "" { hide AboutUser; }
  }

  lemma NobodyIsUnnamed(m: Entries, organizationId: Option<string>)
    requires WellScoped(m)
    ensures forall k :: k in m.vals ==> !AboutUser(m.vals[k], "", organizationId)
  {
    forall k | k in m.vals ensures !AboutUser(m.vals[k], "", organizationId) {
      var e := m.vals[k];
      assert HasIdentifier(e.scope, e.userId, e.conversationId, e.sessionId);
    }
  }

  predicate OfConversation(e: Entry, conversationId: string, organizationId: Option<string>) {
    e.organizationId == organizationId && e.scope.Conversation? && e.conversationId == Some(conversationId)
  }

  /** What ending a conversation clears is its own memories, and nothing else. */
  ghost predicate EndsExactly(m: Entries, conversationId: string, organizationId: Option<string>)
    requires m.Valid()
  {
    var r := ForgetConversationStep(m, conversationId, organizationId);
    forall k :: k in m.vals ==> (k in r.vals <==> !OfConversation(m.vals[k], conversationId, organizationId))
  }

  lemma WhatIsEnded(m: Entries, conversationId: string, organizationId: Option<string>)
    requires m.Valid()
    ensures var r := ForgetConversationStep(m, conversationId, organizationId);
            && (forall k :: k in r.vals <==>
                  (k in m.vals
                   && !(m.vals[k].organizationId == organizationId && m.vals[k].scope.Conversation?
                        && (conversationId == "" || m.vals[k].conversationId == Some(conversationId)))))
            && forall k :: k in r.vals ==> r.vals[k] == m.vals[k]
  {
    hide DeleteWhere;
  }

  lemma NoConversationIsUnnamed(m: Entries, organizationId: Option<string>)
    requires WellScoped(m)
    ensures forall k :: k in m.vals ==> !OfConversation(m.vals[k], "", organizationId)
  {
    forall k | k in m.vals ensures !OfConversation(m.vals[k], "", organizationId) {
      var e := m.vals[k];
      assert HasIdentifier(e.scope, e.userId, e.conversationId, e.sessionId);
    }
  }

  lemma EndsIff(m: Entries, conversationId: string, organizationId: Option<string>)
    requires m.Valid() && WellScoped(m)
    ensures EndsExactly(m, conversationId, organizationId) <==>
              conversationId != "" || forall k :: k in m.vals && m.vals[k].organizationId == organizationId ==> !m.vals[k].scope.Conversation?
    ensures forall k :: k in ForgetConversationStep(m, conversationId, organizationId).vals ==>
              ForgetConversationStep(m, conversationId, organizationId).vals[k] == m.vals[k]
  {
    WhatIsEnded(m, conversationId, organizationId);
    NoConversationIsUnnamed(m, organizationId);
    hide ForgetConversationStep, WellScoped;
    if conversationId == "" { hide OfConversation; }
  }

  /**
   * In every reachable state that is so exactly when a conversation id is given, or the tenant has no
   * conversation memories at all: an empty id ends everybody's.
   */
  lemma ForgetConversationExact(c: Config, ops: seq<Op>, conversationId: string, organizationId: Option<string>)
    requires c.policy.Valid()
    ensures var m := Run(c, ops);
            EndsExactly(m, conversationId, organizationId) <==>
              conversationId != "" || forall k :: k in m.vals && m.vals[k].organizationId == organizationId ==> !m.vals[k].scope.Conversation?
    ensures forall k :: k in ForgetConversationStep(Run(c, ops), conversationId, organizationId).vals ==>
              ForgetConversationStep(Run(c, ops), conversationId, organizationId).vals[k] == Run(c, ops).vals[k]
  {
    RunInvariant(c, ops);
    hide Run, ForgetConversationStep, Bounded, WellScoped, EndsExactly;
    EndsIff(Run(c, ops), conversationId, organizationId);
  }

  // A store that one call reaches, and two requests to forget.

  function Personal(): Config { Config(Policy([User, Conversation], [User, Conversation], 10, 100, false), (_: Entry) => true, None) }

  function About(scope: Scope): NewMemory { NewMemory(scope, None, Some("ann"), Some("thread"), None, None, "k", "v", Some(100)) }

  lemma OneReached(scope: Scope)
    requires scope in {User, Conversation}
    ensures Run(Personal(), [DoRemember(About(scope), "a", 1)]).vals == map["a" := EntryFor(About(scope), "a", 1)]
  {
    var c, ops := Personal(), [DoRemember(About(scope), "a", 1)];
    assert ops[..0] == [];
    RoomToSpare(c, Empty(), About(scope), "a", 1);
    hide RememberStep;
    assert Run(c, ops) == Empty<string, Entry>().Set("a", EntryFor(About(scope), "a", 1));
  }

  /** Forgetting nobody in particular forgets Ann. */
  lemma EmptyIdForgetsReachably()
    ensures var m := Run(Personal(), [DoRemember(About(User), "a", 1)]);
            && "a" in m.vals && m.vals["a"].userId == Some("ann")
            && "a" !in ForgetUserStep(m, "", None).vals && !ForgetsExactly(m, "", None)
  {
    OneReached(User);
    var m := Run(Personal(), [DoRemember(About(User), "a", 1)]);
    hide Run;
    WhoIsForgotten(m, "", None);
    hide ForgetUserStep;
    assert "ann" != "";
  }

  /** Ending no conversation in particular ends this one. */
  lemma EmptyConversationForgetsReachably()
    ensures var m := Run(Personal(), [DoRemember(About(Conversation), "a", 1)]);
            && "a" in m.vals && m.vals["a"].conversationId == Some("thread")
            && "a" !in ForgetConversationStep(m, "", None).vals && !EndsExactly(m, "", None)
  {
    OneReached(Conversation);
    var m := Run(Personal(), [DoRemember(About(Conversation), "a", 1)]);
    hide Run;
    WhatIsEnded(m, "", None);
    hide ForgetConversationStep;
    assert "thread" != "";
  }

  /** And forgetting Ann keeps what a conversation holds under her id. */
  lemma NamedElsewhereReachably()
    ensures var m := Run(Personal(), [DoRemember(About(Conversation), "a", 1)]);
            "a" in m.vals && m.vals["a"].userId == Some("ann") && "a" in ForgetUserStep(m, "ann", None).vals
  {
    OneReached(Conversation);
    var m := Run(Personal(), [DoRemember(About(Conversation), "a", 1)]);
    hide Run, ForgetUserStep;
    NamedElsewhereSurvives(m, "ann", None, "a");
  }
}
