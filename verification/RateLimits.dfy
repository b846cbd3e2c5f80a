/** Sliding-window rate limits: the pruned hit log, which limits apply, and the decision. */
module RateLimits {
  import opened Text
  import opened Sorting

  datatype Unit = Second | Minute | Hour | Day {
    function Ms(): (ms: int)
      ensures ms > 0
    {
      match this
      case Second => 1_000
      case Minute => 60_000
      case Hour => 3_600_000
      case Day => 86_400_000
    }
  }

  /** Narrowest first. */
  datatype Scope = Endpoint | PerConsumer | Tenant | Api | Global {
    function Narrowness(): nat {
      match this
      case Endpoint => 0
      case PerConsumer => 1
      case Tenant => 2
      case Api => 3
      case Global => 4
    }
  }

  datatype Strategy = Sliding | Fixed

  datatype Action = Refuse | Shadow

  datatype Limit = Limit(
    limitId: string,
    scope: Scope,
    apiId: Option<string>,
    operationId: Option<string>,
    subjectId: Option<string>,
    limit: nat,
    unit: Unit,
    burst: Option<nat>,
    strategy: Strategy,
    action: Action,
    priority: nat)
  {
    function Ceiling(): nat { if burst.Some? then burst.value else limit }
  }

  datatype Request = Request(
    apiId: string,
    operationId: string,
    consumerId: string,
    organizationId: Option<string>,
    at: int)

  datatype Decision = Decision(
    allowed: bool,
    limitId: Option<string>,
    remaining: nat,
    resetAt: int,
    retryAfterSeconds: int,
    wouldHaveRefused: bool)

  // --- which limits apply, and under which counter ----------------------------

  predicate Applies(l: Limit, r: Request) {
    && (l.apiId.Some? ==> l.apiId.value == r.apiId)
    && (l.operationId.Some? ==> l.operationId.value == r.operationId)
    && (l.scope.PerConsumer? && l.subjectId.Some? ==> l.subjectId.value == r.consumerId)
    && (l.scope.Tenant? && l.subjectId.Some? ==> l.subjectId == r.organizationId)
  }

  /** The sort key: narrowness, then priority. */
  predicate NotAfter(l: Limit, m: Limit) {
    l.scope.Narrowness() < m.scope.Narrowness()
    || (l.scope.Narrowness() == m.scope.Narrowness() && l.priority <= m.priority)
  }

  function AppliesTo(r: Request): Limit -> bool { l => Applies(l, r) }

  /** `filter` then a stable `sort`. */
  function ApplicableLimits(limits: seq<Limit>, r: Request): (ls: seq<Limit>)
    ensures forall l :: l in ls <==> l in limits && Applies(l, r)
  {
    StableSort(Filter(limits, AppliesTo(r)), NotAfter)
  }

  lemma ApplicableOrdered(limits: seq<Limit>, r: Request)
    ensures forall i, j :: 0 <= i < j < |ApplicableLimits(limits, r)| ==>
              NotAfter(ApplicableLimits(limits, r)[i], ApplicableLimits(limits, r)[j])
  {
    hide StableSort, Filter;
    SortOrdered(Filter(limits, AppliesTo(r)), NotAfter);
    assert Ordered(ApplicableLimits(limits, r), NotAfter);
  }

  function TiesWith(m: Limit): Limit -> bool { l => NotAfter(l, m) && NotAfter(m, l) }

  /** Nothing is lost or repeated, and within a tie the limits keep the order they were given in. */
  lemma ApplicableStable(limits: seq<Limit>, r: Request, m: Limit)
    ensures Filter(ApplicableLimits(limits, r), TiesWith(m)) == Filter(Filter(limits, AppliesTo(r)), TiesWith(m))
  {
    hide StableSort, Filter;
    SortStable(Filter(limits, AppliesTo(r)), NotAfter, TiesWith(m));
  }

  function Subject(l: Limit, r: Request): string {
    match l.scope
    case PerConsumer => r.consumerId
    case Tenant => if r.organizationId.Some? then r.organizationId.value else "platform"
    case Endpoint => r.consumerId + ":" + r.operationId
    case Api => r.apiId
    case Global => "global"
  }

  function CounterKey(l: Limit, r: Request): string { l.limitId + ":" + Subject(l, r) }

  /** Limit ids without a colon never share a counter, whatever the requests. */
  lemma CounterKeysApart(l: Limit, r: Request, m: Limit, s: Request)
    requires ':' !in l.limitId && ':' !in m.limitId && l.limitId != m.limitId
    ensures CounterKey(l, r) != CounterKey(m, s)
  {
    SplitAtFirst(l.limitId, Subject(l, r), ':');
    SplitAtFirst(m.limitId, Subject(m, s), ':');
    assert Split(CounterKey(l, r), ':')[0] == l.limitId && Split(CounterKey(m, s), ':')[0] == m.limitId;
  }

  // --- the pruned log ---------------------------------------------------------

  function After(cutoff: int): int -> bool { t => t > cutoff }

  /** The timestamps after a cutoff. */
  function Kept(times: seq<int>, cutoff: int): (r: seq<int>)
    ensures |r| <= |times|
  {
    Filter(times, After(cutoff))
  }

  lemma KeptAppend(times: seq<int>, t: int, cutoff: int)
    ensures Kept(times + [t], cutoff) == if t > cutoff then Kept(times, cutoff) + [t] else Kept(times, cutoff)
  {
    FilterAppend(times, t, After(cutoff));
  }

  function Later(a: int, b: int): (r: int)
    ensures r >= a && r >= b && (r == a || r == b)
  {
    if a >= b then a else b
  }

  /** Pruning twice is pruning at the later cutoff. */
  lemma {:induction false} KeptKept(times: seq<int>, a: int, b: int)
    ensures Kept(Kept(times, a), b) == Kept(times, Later(a, b))
  {
    if times != [] {
      var front, last := times[..|times| - 1], times[|times| - 1];
      KeptKept(front, a, b);
      if last > a { KeptAppend(Kept(front, a), last, b); }
    }
  }

  ghost predicate Between(times: seq<int>, low: int, high: int) { exists i :: 0 <= i < |times| && low < times[i] <= high }

  /** Pruning at a later cutoff loses something exactly when a timestamp lies between the two. */
  lemma {:induction false} KeptShrinks(times: seq<int>, earlier: int, later: int)
    requires earlier <= later
    ensures if Between(times, earlier, later) then |Kept(times, later)| < |Kept(times, earlier)|
            else Kept(times, later) == Kept(times, earlier)
  {
    if times != [] {
      var front, last := times[..|times| - 1], times[|times| - 1];
      KeptShrinks(front, earlier, later);
      assert forall i :: 0 <= i < |front| ==> front[i] == times[i];
      assert Between(times, earlier, later) <==> Between(front, earlier, later) || earlier < last <= later;
    }
  }

  type Hits = map<string, seq<int>>

  function Get(hits: Hits, key: string): seq<int> { if key in hits then hits[key] else [] }

  function HitCount(hits: Hits, key: string, at: int, windowMs: int): nat {
    |Kept(Get(hits, key), at - windowMs)| + 1
  }

  function AfterHit(hits: Hits, key: string, at: int, windowMs: int): Hits {
    hits[key := Kept(Get(hits, key), at - windowMs) + [at]]
  }

  class InMemoryRateCounterStore {
    var hits: Hits

    constructor ()
      ensures hits == map[]
    {
      hits := map[];
    }

    /** Drops what has left the window, counts this request, and returns how many are inside. */
    method Hit(key: string, at: int, windowMs: int) returns (count: nat)
      modifies this
      ensures hits == AfterHit(old(hits), key, at, windowMs)
      ensures count == HitCount(old(hits), key, at, windowMs)
    {
      var cutoff := at - windowMs;
      var stored := Get(hits, key);
      var kept: seq<int> := [];
      for i := 0 to |stored|
        invariant kept == Kept(stored[..i], cutoff)
      {
        if stored[i] > cutoff { kept := kept + [stored[i]]; }
        assert stored[..i + 1][..i] == stored[..i];
      }
      assert stored[..|stored|] == stored;
      kept := kept + [at];
      hits := hits[key := kept];
      count := |kept|;
    }
  }

  // --- the decision -----------------------------------------------------------

  /** Every limit in a list counts the request, in order. */
  function HitAll(hits: Hits, ls: seq<Limit>, r: Request): Hits {
    if ls == [] then hits
    else
      var l := ls[|ls| - 1];
      AfterHit(HitAll(hits, ls[..|ls| - 1], r), CounterKey(l, r), r.at, l.unit.Ms())
  }

  /** The count the i-th limit of a list sees. */
  function CountAt(hits: Hits, ls: seq<Limit>, r: Request, i: nat): nat
    requires i < |ls|
  {
    HitCount(HitAll(hits, ls[..i], r), CounterKey(ls[i], r), r.at, ls[i].unit.Ms())
  }

  predicate BreachedAt(hits: Hits, ls: seq<Limit>, r: Request, i: nat)
    requires i < |ls|
  {
    CountAt(hits, ls, r, i) > ls[i].Ceiling()
  }

  /** Whether a list of limits lets a request through: no refusing limit is above its ceiling. */
  predicate Permits(hits: Hits, ls: seq<Limit>, r: Request) {
    forall i :: 0 <= i < |ls| && ls[i].action.Refuse? ==> !BreachedAt(hits, ls, r, i)
  }

  function WindowStart(l: Limit, at: int): int {
    if l.strategy.Fixed? then at / l.unit.Ms() * l.unit.Ms() else at - l.unit.Ms()
  }

  function CeilDiv(n: int, d: int): int
    requires d > 0
  {
    -((-n) / d)
  }

  function DecisionFor(l: Limit, r: Request, count: nat): Decision {
    var resetAt := WindowStart(l, r.at) + l.unit.Ms();
    var wait := CeilDiv(resetAt - r.at, 1000);
    Decision(count <= l.Ceiling(), Some(l.limitId), if count <= l.Ceiling() then l.Ceiling() - count else 0,
             resetAt, if wait < 1 then 1 else wait, false)
  }

  /** The i-th limit is the first refusing one that is breached. */
  predicate FirstRefusal(hits: Hits, ls: seq<Limit>, r: Request, i: nat) {
    && i < |ls| && ls[i].action.Refuse? && BreachedAt(hits, ls, r, i)
    && forall j :: 0 <= j < i && ls[j].action.Refuse? ==> !BreachedAt(hits, ls, r, j)
  }

  function Remaining(hits: Hits, ls: seq<Limit>, r: Request, i: nat): nat
    requires i < |ls|
  {
    DecisionFor(ls[i], r, CountAt(hits, ls, r, i)).remaining
  }

  // What the loop of `CheckRate` knows after the first `n` limits.

  ghost predicate RefusalAfter(hits: Hits, ls: seq<Limit>, r: Request, n: nat, d: Option<Decision>)
    requires n <= |ls|
  {
    match d
    case None => forall j :: 0 <= j < n && ls[j].action.Refuse? ==> !BreachedAt(hits, ls, r, j)
    case Some(refusal) =>
      exists i: nat :: i < n && FirstRefusal(hits, ls, r, i) && refusal == DecisionFor(ls[i], r, CountAt(hits, ls, r, i))
  }

  ghost predicate TightestAfter(hits: Hits, ls: seq<Limit>, r: Request, n: nat, d: Option<Decision>)
    requires n <= |ls|
  {
    match d
    case None => n == 0
    case Some(t) =>
      exists i: nat :: i < n && t == DecisionFor(ls[i], r, CountAt(hits, ls, r, i))
        && (forall j :: 0 <= j < n ==> Remaining(hits, ls, r, i) <= Remaining(hits, ls, r, j))
        && (forall j :: 0 <= j < i ==> Remaining(hits, ls, r, i) < Remaining(hits, ls, r, j))
  }

  ghost predicate ShadowedAfter(hits: Hits, ls: seq<Limit>, r: Request, n: nat, shadowed: bool)
    requires n <= |ls|
  {
    shadowed <==> exists j :: 0 <= j < n && ls[j].action.Shadow? && BreachedAt(hits, ls, r, j)
  }

  /** A refusal describes the first breached refusing limit; an allowance, the tightest one. */
  ghost predicate DecidesRate(hits: Hits, ls: seq<Limit>, r: Request, d: Decision) {
    if ls == [] then d == Decision(true, None, 0, r.at, 0, false)
    else if !d.allowed then RefusalAfter(hits, ls, r, |ls|, Some(d))
    else
      && RefusalAfter(hits, ls, r, |ls|, None)
      && ShadowedAfter(hits, ls, r, |ls|, d.wouldHaveRefused)
      && exists t: Decision :: TightestAfter(hits, ls, r, |ls|, Some(t))
           && d == t.(allowed := true, wouldHaveRefused := d.wouldHaveRefused)
  }

  lemma RefusalStep(hits: Hits, ls: seq<Limit>, r: Request, n: nat, d: Option<Decision>, e: Option<Decision>)
    requires n < |ls| && RefusalAfter(hits, ls, r, n, d)
    requires var count := CountAt(hits, ls, r, n);
             e == if count > ls[n].Ceiling() && ls[n].action.Refuse? && d.None?
                  then Some(DecisionFor(ls[n], r, count)) else d
    ensures RefusalAfter(hits, ls, r, n + 1, e)
  {
    hide DecisionFor, CountAt;
    if d.None? && e.Some? { assert FirstRefusal(hits, ls, r, n); }
  }

  lemma TightestStep(hits: Hits, ls: seq<Limit>, r: Request, n: nat, d: Option<Decision>, e: Option<Decision>)
    requires n < |ls| && TightestAfter(hits, ls, r, n, d)
    requires var decision := DecisionFor(ls[n], r, CountAt(hits, ls, r, n));
             e == if d.None? || decision.remaining < d.value.remaining then Some(decision) else d
    ensures TightestAfter(hits, ls, r, n + 1, e)
  {
    hide DecisionFor, CountAt;
    assert forall i: nat :: i < |ls| ==> Remaining(hits, ls, r, i) == DecisionFor(ls[i], r, CountAt(hits, ls, r, i)).remaining;
    hide Remaining;
    if d.Some? {
      var i: nat :| i < n && d.value == DecisionFor(ls[i], r, CountAt(hits, ls, r, i))
        && (forall j :: 0 <= j < n ==> Remaining(hits, ls, r, i) <= Remaining(hits, ls, r, j))
        && (forall j :: 0 <= j < i ==> Remaining(hits, ls, r, i) < Remaining(hits, ls, r, j));
      var k := if e == d then i else n;
      assert forall j :: 0 <= j < n + 1 ==> Remaining(hits, ls, r, k) <= Remaining(hits, ls, r, j);
    }
  }

  lemma ShadowedStep(hits: Hits, ls: seq<Limit>, r: Request, n: nat, was: bool, now: bool)
    requires n < |ls| && ShadowedAfter(hits, ls, r, n, was)
    requires now == (was || (CountAt(hits, ls, r, n) > ls[n].Ceiling() && ls[n].action.Shadow?))
    ensures ShadowedAfter(hits, ls, r, n + 1, now)
  {
    hide CountAt;
    if now && !was { assert BreachedAt(hits, ls, r, n); }
  }

  lemma HitAllStep(hits: Hits, ls: seq<Limit>, r: Request, n: nat)
    requires n < |ls|
    ensures var l := ls[n];
            HitAll(hits, ls[..n + 1], r) == AfterHit(HitAll(hits, ls[..n], r), CounterKey(l, r), r.at, l.unit.Ms())
  {
    assert ls[..n + 1][..n] == ls[..n];
  }

  lemma BeforeFirst(hits: Hits, ls: seq<Limit>, r: Request)
    ensures HitAll(hits, ls[..0], r) == hits
    ensures RefusalAfter(hits, ls, r, 0, None) && TightestAfter(hits, ls, r, 0, None) && ShadowedAfter(hits, ls, r, 0, false)
  {
  }

  lemma Concluded(hits: Hits, ls: seq<Limit>, r: Request, refusal: Option<Decision>, tightest: Option<Decision>, shadowed: bool, d: Decision)
    requires ls != []
    requires RefusalAfter(hits, ls, r, |ls|, refusal) && (refusal.Some? ==> !refusal.value.allowed)
    requires TightestAfter(hits, ls, r, |ls|, tightest)
    requires ShadowedAfter(hits, ls, r, |ls|, shadowed)
    requires refusal.Some? ==> d == refusal.value
    requires refusal.None? ==> tightest.Some? && d == tightest.value.(allowed := true, wouldHaveRefused := shadowed)
    ensures DecidesRate(hits, ls, r, d) && d.allowed == Permits(hits, ls, r)
  {
  }

  /**
   * Counts the request against every applicable limit, whatever the narrower ones said, and
   * decides: refused by the first breached refusing limit, else described by the tightest.
   */
  method CheckRate(limits: seq<Limit>, r: Request, store: InMemoryRateCounterStore) returns (d: Decision)
    modifies store
    ensures store.hits == HitAll(old(store.hits), ApplicableLimits(limits, r), r)
    ensures DecidesRate(old(store.hits), ApplicableLimits(limits, r), r, d)
    ensures d.allowed == Permits(old(store.hits), ApplicableLimits(limits, r), r)
  {
    var ls := ApplicableLimits(limits, r);
    ghost var h := store.hits;
    if ls == [] { return Decision(true, None, 0, r.at, 0, false); }
    d := EvaluateAll(ls, r, store);
  }

  /** The loop over the applicable limits. */
  method EvaluateAll(ls: seq<Limit>, r: Request, store: InMemoryRateCounterStore) returns (d: Decision)
    requires ls != []
    modifies store
    ensures store.hits == HitAll(old(store.hits), ls, r)
    ensures DecidesRate(old(store.hits), ls, r, d) && d.allowed == Permits(old(store.hits), ls, r)
  {
    hide RefusalAfter, TightestAfter, ShadowedAfter, HitAll, DecidesRate, DecisionFor, AfterHit, HitCount, Permits;
    ghost var h := store.hits;
    var refusal: Option<Decision> := None;
    var tightest: Option<Decision> := None;
    var shadowed := false;
    BeforeFirst(h, ls, r);
    for i := 0 to |ls|
      invariant store.hits == HitAll(h, ls[..i], r)
      invariant RefusalAfter(h, ls, r, i, refusal) && (refusal.Some? ==> !refusal.value.allowed)
      invariant TightestAfter(h, ls, r, i, tightest) && (i > 0 ==> tightest.Some?)
      invariant ShadowedAfter(h, ls, r, i, shadowed)
    {
      ghost var refusal0, tightest0, shadowed0 := refusal, tightest, shadowed;
      var l := ls[i];
      var count := store.Hit(CounterKey(l, r), r.at, l.unit.Ms());
      HitAllStep(h, ls, r, i);
      var decision := DecisionFor(l, r, count);
      DecisionAllowed(l, r, count);
      if tightest.None? || decision.remaining < tightest.value.remaining {
        tightest := Some(decision);
      }
      if count > l.Ceiling() {
        if l.action.Shadow? {
          shadowed := true;
        } else if refusal.None? {
          refusal := Some(decision);
        }
      }
      RefusalStep(h, ls, r, i, refusal0, refusal);
      TightestStep(h, ls, r, i, tightest0, tightest);
      ShadowedStep(h, ls, r, i, shadowed0, shadowed);
    }
    assert ls[..|ls|] == ls;
    d := if refusal.Some? then refusal.value else tightest.value.(allowed := true, wouldHaveRefused := shadowed);
    Concluded(h, ls, r, refusal, tightest, shadowed, d);
  }

  lemma DecisionAllowed(l: Limit, r: Request, count: nat)
    ensures DecisionFor(l, r, count).allowed == (count <= l.Ceiling())
  {
  }

  // --- runs -------------------------------------------------------------------

  /** No request ever makes the two limits share a counter. */
  ghost predicate Apart(l: Limit, m: Limit) { forall r, s :: CounterKey(l, r) != CounterKey(m, s) }

  ghost predicate KeysApart(limits: seq<Limit>) {
    forall i, j :: 0 <= i < j < |limits| ==> Apart(limits[i], limits[j])
  }

  /** Distinct colon-free limit ids are enough. */
  lemma DistinctIdsApart(limits: seq<Limit>)
    requires forall i, j :: 0 <= i < j < |limits| ==> limits[i].limitId != limits[j].limitId
    requires forall i :: 0 <= i < |limits| ==> ':' !in limits[i].limitId
    ensures KeysApart(limits)
  {
    forall i, j, r, s | 0 <= i < j < |limits| ensures CounterKey(limits[i], r) != CounterKey(limits[j], s) {
      CounterKeysApart(limits[i], r, limits[j], s);
    }
  }

  lemma ApartInList(limits: seq<Limit>, l: Limit, m: Limit, r: Request, s: Request)
    requires KeysApart(limits) && l in limits && m in limits && l != m
    ensures CounterKey(l, r) != CounterKey(m, s)
  {
    var i :| 0 <= i < |limits| && limits[i] == l;
    var j :| 0 <= j < |limits| && limits[j] == m;
    assert Apart(limits[i], limits[j]) || Apart(limits[j], limits[i]);
  }

  lemma ApartBothWays(l: Limit, m: Limit)
    requires Apart(l, m)
    ensures Apart(m, l)
  {
    forall r, s ensures CounterKey(m, r) != CounterKey(l, s) {
      assert CounterKey(l, s) != CounterKey(m, r);
    }
  }

  lemma ApplicableApart(limits: seq<Limit>, r: Request)
    requires KeysApart(limits)
    ensures KeysApart(ApplicableLimits(limits, r))
  {
    hide StableSort, Filter;
    forall l, m | Apart(l, m) ensures Apart(m, l) { ApartBothWays(l, m); }
    hide Apart;
    assert Ordered(limits, Apart);
    FilterPairwise(limits, AppliesTo(r), Apart);
    SortPairwise(Filter(limits, AppliesTo(r)), NotAfter, Apart);
    assert Ordered(ApplicableLimits(limits, r), Apart);
  }

  /** One count on a counter: when it came, and the window it pruned by. */
  datatype Hit = Hit(at: int, windowMs: int)

  function Times(hits: seq<Hit>): seq<int> {
    if hits == [] then [] else Times(hits[..|hits| - 1]) + [hits[|hits| - 1].at]
  }

  /** The counts one request makes on a counter: one for every limit that shares it. */
  function HitsOn(ls: seq<Limit>, r: Request, key: string): seq<Hit> {
    if ls == [] then []
    else
      var l, rest := ls[|ls| - 1], HitsOn(ls[..|ls| - 1], r, key);
      if CounterKey(l, r) == key then rest + [Hit(r.at, l.unit.Ms())] else rest
  }

  /** What a list becomes when each count prunes it by its own window and then joins it. */
  function Pruned(start: seq<int>, hits: seq<Hit>): seq<int> {
    if hits == [] then start
    else
      var h := hits[|hits| - 1];
      Kept(Pruned(start, hits[..|hits| - 1]), h.at - h.windowMs) + [h.at]
  }

  lemma PrunedStep(start: seq<int>, hits: seq<Hit>, h: Hit)
    ensures Pruned(start, hits + [h]) == Kept(Pruned(start, hits), h.at - h.windowMs) + [h.at]
  {
    assert (hits + [h])[..|hits|] == hits;
  }

  lemma PrunedNothing(start: seq<int>)
    ensures Pruned(start, []) == start
  {
  }

  lemma {:induction false} PrunedAppend(start: seq<int>, a: seq<Hit>, b: seq<Hit>)
    ensures Pruned(start, a + b) == Pruned(Pruned(start, a), b)
  {
    hide Pruned, Kept;
    if b == [] {
      assert a + b == a;
      PrunedNothing(Pruned(start, a));
    } else {
      var front, h := b[..|b| - 1], b[|b| - 1];
      PrunedAppend(start, a, front);
      PrunedStep(start, a + front, h);
      PrunedStep(Pruned(start, a), front, h);
      assert a + b == a + front + [h] && b == front + [h];
    }
  }

  lemma AfterHitOn(hits: Hits, k: string, at: int, windowMs: int, key: string)
    ensures Get(AfterHit(hits, k, at, windowMs), key)
            == if k == key then Kept(Get(hits, key), at - windowMs) + [at] else Get(hits, key)
  {
    hide Kept;
  }

  lemma OneMoreLimit(hits: Hits, ls: seq<Limit>, r: Request, key: string)
    requires ls != []
    ensures var front, l := ls[..|ls| - 1], ls[|ls| - 1];
            && HitAll(hits, ls, r) == AfterHit(HitAll(hits, front, r), CounterKey(l, r), r.at, l.unit.Ms())
            && HitsOn(ls, r, key) == HitsOn(front, r, key) + if CounterKey(l, r) == key then [Hit(r.at, l.unit.Ms())] else []
  {
    hide CounterKey, AfterHit;
  }

  lemma NoLimits(hits: Hits, r: Request, key: string)
    ensures HitAll(hits, [], r) == hits && HitsOn([], r, key) == []
  {
  }

  /** Whatever shares it, a counter takes exactly the counts made on it, whatever the decision. */
  lemma {:induction false} HitAllPrunes(hits: Hits, ls: seq<Limit>, r: Request, key: string)
    ensures Get(HitAll(hits, ls, r), key) == Pruned(Get(hits, key), HitsOn(ls, r, key))
  {
    hide *;
    if ls == [] {
      NoLimits(hits, r, key);
      PrunedNothing(Get(hits, key));
    } else {
      var front, l, h := ls[..|ls| - 1], ls[|ls| - 1], Hit(r.at, ls[|ls| - 1].unit.Ms());
      HitAllPrunes(hits, front, r, key);
      OneMoreLimit(hits, ls, r, key);
      AfterHitOn(HitAll(hits, front, r), CounterKey(l, r), r.at, h.windowMs, key);
      PrunedStep(Get(hits, key), HitsOn(front, r, key), h);
      assert HitsOn(front, r, key) + [] == HitsOn(front, r, key);
    }
  }

  lemma {:induction false} HitsOnOther(ls: seq<Limit>, r: Request, key: string)
    requires forall m :: m in ls ==> CounterKey(m, r) != key
    ensures HitsOn(ls, r, key) == []
  {
    hide CounterKey;
    if ls != [] { HitsOnOther(ls[..|ls| - 1], r, key); }
  }

  lemma {:induction false} HitsOnOwn(ls: seq<Limit>, r: Request, i: nat)
    requires KeysApart(ls) && i < |ls|
    ensures HitsOn(ls, r, CounterKey(ls[i], r)) == [Hit(r.at, ls[i].unit.Ms())]
  {
    hide CounterKey;
    var front, last, key := ls[..|ls| - 1], ls[|ls| - 1], CounterKey(ls[i], r);
    if i == |ls| - 1 {
      forall m | m in front ensures CounterKey(m, r) != key {
        var j :| 0 <= j < |front| && front[j] == m;
        assert Apart(ls[j], ls[i]);
      }
      HitsOnOther(front, r, key);
    } else {
      HitsOnOwn(front, r, i);
      assert Apart(ls[i], ls[|ls| - 1]);
    }
  }

  lemma HitAllOther(hits: Hits, ls: seq<Limit>, r: Request, key: string)
    requires forall m :: m in ls ==> CounterKey(m, r) != key
    ensures Get(HitAll(hits, ls, r), key) == Get(hits, key)
  {
    hide CounterKey, HitAll, HitsOn;
    HitsOnOther(ls, r, key);
    HitAllPrunes(hits, ls, r, key);
  }

  /** Every applicable counter takes the request, whatever the decision. */
  lemma HitAllOwn(hits: Hits, ls: seq<Limit>, r: Request, i: nat)
    requires KeysApart(ls) && i < |ls|
    ensures var key := CounterKey(ls[i], r);
            Get(HitAll(hits, ls, r), key) == Kept(Get(hits, key), r.at - ls[i].unit.Ms()) + [r.at]
  {
    hide CounterKey, HitAll, HitsOn, Kept;
    HitsOnOwn(ls, r, i);
    HitAllPrunes(hits, ls, r, CounterKey(ls[i], r));
    var h := Hit(r.at, ls[i].unit.Ms());
    assert [] + [h] == [h];
    PrunedStep(Get(hits, CounterKey(ls[i], r)), [], h);
  }

  /** With separate counters, what a limit counts does not depend on the limits before it. */
  lemma CountAtAlone(hits: Hits, ls: seq<Limit>, r: Request, i: nat)
    requires KeysApart(ls) && i < |ls|
    ensures CountAt(hits, ls, r, i) == HitCount(hits, CounterKey(ls[i], r), r.at, ls[i].unit.Ms())
  {
    var key := CounterKey(ls[i], r);
    forall m | m in ls[..i] ensures CounterKey(m, r) != key {
      var j :| 0 <= j < i && ls[j] == m;
      assert Apart(ls[j], ls[i]);
    }
    HitAllOther(hits, ls[..i], r, key);
  }

  predicate CountsOn(l: Limit, key: string, r: Request) { Applies(l, r) && CounterKey(l, r) == key }

  /** The full, unpruned history of a counter: when every request it ever counted arrived. */
  function History(l: Limit, key: string, requests: seq<Request>): seq<int> {
    if requests == [] then []
    else
      var r, rest := requests[|requests| - 1], History(l, key, requests[..|requests| - 1]);
      if CountsOn(l, key, r) then rest + [r.at] else rest
  }

  /** The store after every request of a run has been checked. */
  function RunHits(limits: seq<Limit>, requests: seq<Request>): Hits {
    if requests == [] then map[]
    else
      var r := requests[|requests| - 1];
      HitAll(RunHits(limits, requests[..|requests| - 1]), ApplicableLimits(limits, r), r)
  }

  ghost predicate InOrder(requests: seq<Request>) {
    forall i, j :: 0 <= i < j < |requests| ==> requests[i].at <= requests[j].at
  }

  /** Every count a run makes on a counter, in order: its full, unpruned history. */
  function AllHits(limits: seq<Limit>, requests: seq<Request>, key: string): seq<Hit> {
    if requests == [] then []
    else
      var r := requests[|requests| - 1];
      AllHits(limits, requests[..|requests| - 1], key) + HitsOn(ApplicableLimits(limits, r), r, key)
  }

  lemma AllHitsStep(more: seq<Limit>, requests: seq<Request>, r: Request, key: string)
    ensures AllHits(more, requests + [r], key) == AllHits(more, requests, key) + HitsOn(ApplicableLimits(more, r), r, key)
  {
    assert (requests + [r])[..|requests|] == requests && (requests + [r])[|requests|] == r;
    hide ApplicableLimits, HitsOn;
  }

  lemma {:induction false} StoreIsPruned(limits: seq<Limit>, requests: seq<Request>, key: string)
    ensures Get(RunHits(limits, requests), key) == Pruned([], AllHits(limits, requests, key))
  {
    hide ApplicableLimits, Kept, Pruned, HitAll, HitsOn;
    if requests == [] {
      PrunedNothing([]);
    } else {
      var front, r := requests[..|requests| - 1], requests[|requests| - 1];
      StoreIsPruned(limits, front, key);
      HitAllPrunes(RunHits(limits, front), ApplicableLimits(limits, r), r, key);
      PrunedAppend([], AllHits(limits, front, key), HitsOn(ApplicableLimits(limits, r), r, key));
    }
  }

  /** A count still wanted after the cutoff was pruned by a later arrival whose own window had passed it. */
  ghost predicate Forgotten(hits: seq<Hit>, cutoff: int) {
    exists i, j :: 0 <= i < j < |hits| && cutoff < hits[i].at <= hits[j].at - hits[j].windowMs
  }

  lemma {:induction false} TimesAre(hits: seq<Hit>)
    ensures |Times(hits)| == |hits| && forall i :: 0 <= i < |hits| ==> Times(hits)[i] == hits[i].at
  {
    if hits != [] { TimesAre(hits[..|hits| - 1]); }
  }

  lemma ForgottenStep(front: seq<Hit>, h: Hit, cutoff: int)
    ensures Forgotten(front + [h], cutoff) <==> Forgotten(front, cutoff) || Between(Times(front), cutoff, h.at - h.windowMs)
  {
    TimesAre(front);
    var all := front + [h];
    if Between(Times(front), cutoff, h.at - h.windowMs) {
      var i :| 0 <= i < |Times(front)| && cutoff < Times(front)[i] <= h.at - h.windowMs;
      assert all[i] == front[i] && all[|front|] == h;
    }
    if Forgotten(front, cutoff) {
      var i, j :| 0 <= i < j < |front| && cutoff < front[i].at <= front[j].at - front[j].windowMs;
      assert all[i] == front[i] && all[j] == front[j];
    }
    if Forgotten(all, cutoff) {
      var i, j :| 0 <= i < j < |all| && cutoff < all[i].at <= all[j].at - all[j].windowMs;
      assert all[i] == front[i] && Times(front)[i] == front[i].at;
      if j < |front| { assert all[j] == front[j]; }
    }
  }

  /** Raising the cutoff past no timestamp forgets neither more nor less. */
  lemma ForgottenAtLater(hits: seq<Hit>, cutoff: int, later: int)
    requires cutoff <= later && !Between(Times(hits), cutoff, later)
    ensures Forgotten(hits, later) <==> Forgotten(hits, cutoff)
  {
    TimesAre(hits);
    assert forall i :: 0 <= i < |hits| ==> (cutoff < hits[i].at <==> later < hits[i].at) by {
      forall i | 0 <= i < |hits| ensures cutoff < hits[i].at <==> later < hits[i].at { assert Times(hits)[i] == hits[i].at; }
    }
  }

  /**
   * In any order of arrival the pruned list holds what the full history holds after a cutoff, exactly
   * when nothing after it was forgotten; otherwise it holds strictly less.
   */
  lemma {:induction false} PrunedExactly(hits: seq<Hit>, cutoff: int)
    ensures if Forgotten(hits, cutoff) then |Kept(Pruned([], hits), cutoff)| < |Kept(Times(hits), cutoff)|
            else Kept(Pruned([], hits), cutoff) == Kept(Times(hits), cutoff)
  {
    hide *;
    if hits == [] {
      PrunedNothing([]);
      NothingForgotten(cutoff);
    } else {
      var front, h := hits[..|hits| - 1], hits[|hits| - 1];
      var edge := h.at - h.windowMs;
      var later := Later(edge, cutoff);
      PrunedExactly(front, later);
      assert hits == front + [h];
      PrunedStep([], front, h);
      TimesStep(front, h);
      KeptAppend(Kept(Pruned([], front), edge), h.at, cutoff);
      KeptAppend(Times(front), h.at, cutoff);
      KeptKept(Pruned([], front), edge, cutoff);
      KeptShrinks(Times(front), cutoff, later);
      ForgottenStep(front, h, cutoff);
      BetweenUpTo(Times(front), cutoff, edge);
      if !Between(Times(front), cutoff, later) { ForgottenAtLater(front, cutoff, later); }
    }
  }

  lemma NothingForgotten(cutoff: int)
    ensures Times([]) == [] && !Forgotten([], cutoff)
  {
  }

  lemma TimesStep(hits: seq<Hit>, h: Hit)
    ensures Times(hits + [h]) == Times(hits) + [h.at]
  {
    assert (hits + [h])[..|hits|] == hits;
  }

  lemma BetweenUpTo(times: seq<int>, cutoff: int, edge: int)
    ensures Between(times, cutoff, edge) <==> Between(times, cutoff, Later(edge, cutoff))
  {
  }

  /** So over any run, in any order and however counters are shared, a count is right or falls short exactly so. */
  lemma CountExactly(limits: seq<Limit>, requests: seq<Request>, key: string, cutoff: int)
    ensures var hits := AllHits(limits, requests, key); var stored := Kept(Get(RunHits(limits, requests), key), cutoff);
            if Forgotten(hits, cutoff) then |stored| < |Kept(Times(hits), cutoff)| else stored == Kept(Times(hits), cutoff)
  {
    hide *;
    StoreIsPruned(limits, requests, key);
    PrunedExactly(AllHits(limits, requests, key), cutoff);
  }

  /** With separate counters each limit's counter holds that limit's requests, by its own window. */
  lemma HitsOnCase(limits: seq<Limit>, r: Request, l: Limit, sample: Request)
    requires KeysApart(limits) && l in limits
    ensures var key := CounterKey(l, sample);
            HitsOn(ApplicableLimits(limits, r), r, key) == if CountsOn(l, key, r) then [Hit(r.at, l.unit.Ms())] else []
  {
    hide CounterKey, HitsOn;
    var key, ls := CounterKey(l, sample), ApplicableLimits(limits, r);
    if CountsOn(l, key, r) {
      ApplicableApart(limits, r);
      var i :| 0 <= i < |ls| && ls[i] == l;
      HitsOnOwn(ls, r, i);
    } else {
      forall m | m in ls ensures CounterKey(m, r) != key {
        if m != l { ApartInList(limits, m, l, r, sample); }
      }
      HitsOnOther(ls, r, key);
    }
  }

  lemma {:induction false} AllHitsAreHistory(limits: seq<Limit>, requests: seq<Request>, l: Limit, sample: Request)
    requires KeysApart(limits) && l in limits
    ensures var key := CounterKey(l, sample); var hits := AllHits(limits, requests, key);
            Times(hits) == History(l, key, requests) && forall i :: 0 <= i < |hits| ==> hits[i].windowMs == l.unit.Ms()
  {
    hide CounterKey, ApplicableLimits, HitsOn;
    if requests != [] {
      var front, r, key := requests[..|requests| - 1], requests[|requests| - 1], CounterKey(l, sample);
      AllHitsAreHistory(limits, front, l, sample);
      HitsOnCase(limits, r, l, sample);
      var done, h := AllHits(limits, front, key), Hit(r.at, l.unit.Ms());
      assert (done + [h])[..|done|] == done && done + [] == done;
    }
  }

  lemma {:induction false} HistoryUpTo(l: Limit, key: string, requests: seq<Request>, bound: int)
    requires forall i :: 0 <= i < |requests| ==> requests[i].at <= bound
    ensures forall t :: t in History(l, key, requests) ==> t <= bound
  {
    hide CountsOn;
    if requests != [] {
      var front := requests[..|requests| - 1];
      assert forall k :: 0 <= k < |front| ==> front[k] == requests[k];
      HistoryUpTo(l, key, front, bound);
    }
  }

  /**
   * In time order nothing is ever forgotten: the pruned list holds exactly what the full history
   * holds after any cutoff a later request can use.
   */
  lemma PrunedIsFull(limits: seq<Limit>, requests: seq<Request>, l: Limit, sample: Request, cutoff: int)
    requires KeysApart(limits) && l in limits && InOrder(requests)
    requires requests != [] ==> requests[|requests| - 1].at - l.unit.Ms() <= cutoff
    ensures var key := CounterKey(l, sample);
            Kept(Get(RunHits(limits, requests), key), cutoff) == Kept(History(l, key, requests), cutoff)
  {
    hide CounterKey, Kept, RunHits, AllHits, History, Times;
    var key := CounterKey(l, sample);
    var hits := AllHits(limits, requests, key);
    CountExactly(limits, requests, key, cutoff);
    AllHitsAreHistory(limits, requests, l, sample);
    if requests != [] { HistoryUpTo(l, key, requests, requests[|requests| - 1].at); }
    TimesAre(hits);
    forall i, j | 0 <= i < j < |hits| ensures !(cutoff < hits[i].at <= hits[j].at - hits[j].windowMs) {
      assert Times(hits)[j] == hits[j].at && hits[j].at in History(l, key, requests);
    }
  }

  /** How many of a limit's requests, this one included, the full history puts in its window. */
  function TrueCount(l: Limit, requests: seq<Request>, r: Request): nat {
    |Kept(History(l, CounterKey(l, r), requests), r.at - l.unit.Ms())| + 1
  }

  lemma CountIsTrue(limits: seq<Limit>, requests: seq<Request>, r: Request, i: nat)
    requires KeysApart(limits) && InOrder(requests + [r]) && i < |ApplicableLimits(limits, r)|
    ensures var ls := ApplicableLimits(limits, r); CountAt(RunHits(limits, requests), ls, r, i) == TrueCount(ls[i], requests, r)
  {
    hide Kept, HitAll, CounterKey, RunHits, History;
    var ls := ApplicableLimits(limits, r);
    ApplicableApart(limits, r);
    CountAtAlone(RunHits(limits, requests), ls, r, i);
    assert ls[i] in ls;
    hide ApplicableLimits;
    assert forall k :: 0 <= k < |requests| ==> requests[k] == (requests + [r])[k];
    assert (requests + [r])[|requests|] == r;
    PrunedIsFull(limits, requests, ls[i], r, r.at - ls[i].unit.Ms());
  }

  /**
   * In time order, a request is allowed exactly when no refusing limit that applies to it is above
   * its ceiling in the full history. Each limit's verdict is its own.
   */
  lemma RateDecisionExact(limits: seq<Limit>, requests: seq<Request>, r: Request)
    requires KeysApart(limits) && InOrder(requests + [r])
    ensures Permits(RunHits(limits, requests), ApplicableLimits(limits, r), r) <==>
              forall l :: l in limits && Applies(l, r) && l.action.Refuse? ==> TrueCount(l, requests, r) <= l.Ceiling()
  {
    hide Kept, HitAll, CounterKey, RunHits, History;
    var hits, ls := RunHits(limits, requests), ApplicableLimits(limits, r);
    forall i | 0 <= i < |ls| ensures CountAt(hits, ls, r, i) == TrueCount(ls[i], requests, r) {
      CountIsTrue(limits, requests, r, i);
    }
    hide ApplicableLimits, CountAt, TrueCount;
    forall l | l in limits && Applies(l, r) ensures exists i :: 0 <= i < |ls| && ls[i] == l {
      assert l in ls;
    }
    assert forall i :: 0 <= i < |ls| ==> ls[i] in ls;
  }

  /** A refusal names a breached refusing limit that no other breached one strictly precedes. */
  lemma RefusalIsNarrowest(limits: seq<Limit>, hits: Hits, r: Request, d: Decision)
    requires DecidesRate(hits, ApplicableLimits(limits, r), r, d) && !d.allowed
    ensures var ls := ApplicableLimits(limits, r);
            exists i: nat :: i < |ls| && d.limitId == Some(ls[i].limitId)
              && ls[i].action.Refuse? && BreachedAt(hits, ls, r, i)
              && forall j :: 0 <= j < |ls| && ls[j].action.Refuse? && BreachedAt(hits, ls, r, j) ==> NotAfter(ls[i], ls[j])
  {
    hide CountAt;
    var ls := ApplicableLimits(limits, r);
    ApplicableOrdered(limits, r);
    var i: nat :| i < |ls| && FirstRefusal(hits, ls, r, i) && d == DecisionFor(ls[i], r, CountAt(hits, ls, r, i));
    forall j | 0 <= j < |ls| && ls[j].action.Refuse? && BreachedAt(hits, ls, r, j) ensures NotAfter(ls[i], ls[j]) {
      assert i <= j;
    }
  }

  // --- the sliding window holds -----------------------------------------------

  /** Requests of a run that count on `key`, arrived in `(start, start + window]`, and were allowed. */
  function AllowedWithin(limits: seq<Limit>, l: Limit, key: string, requests: seq<Request>, start: int): nat {
    if requests == [] then 0
    else
      var front, r := requests[..|requests| - 1], requests[|requests| - 1];
      AllowedWithin(limits, l, key, front, start)
      + if CountsOn(l, key, r) && start < r.at <= start + l.unit.Ms()
           && Permits(RunHits(limits, front), ApplicableLimits(limits, r), r) then 1 else 0
  }

  lemma {:induction false} AllowedWereCounted(limits: seq<Limit>, l: Limit, key: string, requests: seq<Request>, start: int, cutoff: int)
    requires cutoff <= start
    ensures AllowedWithin(limits, l, key, requests, start) <= |Kept(History(l, key, requests), cutoff)|
  {
    hide Permits, RunHits, ApplicableLimits, CounterKey;
    if requests != [] {
      var front, r := requests[..|requests| - 1], requests[|requests| - 1];
      AllowedWereCounted(limits, l, key, front, start, cutoff);
      if CountsOn(l, key, r) { KeptAppend(History(l, key, front), r.at, cutoff); }
    }
  }

  /**
   * In every interval as long as its window, a refusing limit lets through at most its ceiling for
   * each counter, whatever else was arriving.
   */
  lemma {:induction false} WindowNeverExceeded(limits: seq<Limit>, l: Limit, sample: Request, requests: seq<Request>, start: int)
    requires KeysApart(limits) && l in limits && l.action.Refuse? && InOrder(requests)
    ensures AllowedWithin(limits, l, CounterKey(l, sample), requests, start) <= l.Ceiling()
  {
    hide Permits, RunHits, ApplicableLimits, CounterKey, Kept;
    if requests != [] {
      var front, r, key := requests[..|requests| - 1], requests[|requests| - 1], CounterKey(l, sample);
      WindowNeverExceeded(limits, l, sample, front, start);
      if CountsOn(l, key, r) && start < r.at <= start + l.unit.Ms()
         && Permits(RunHits(limits, front), ApplicableLimits(limits, r), r) {
        assert front + [r] == requests;
        RateDecisionExact(limits, front, r);
        AllowedWereCounted(limits, l, key, front, start, r.at - l.unit.Ms());
      }
    }
  }

  function StepsBack(): seq<Hit> { [Hit(0, 1000), Hit(5000, 1000)] }

  /** Once the clock steps back, the pruned list is short of a request the full history still counts. */
  lemma ClockStepsBack()
    ensures Forgotten(StepsBack(), 500 - 1000)
    ensures |Kept(Pruned([], StepsBack()), 500 - 1000)| < |Kept(Times(StepsBack()), 500 - 1000)|
  {
    var hits := StepsBack();
    assert -500 < hits[0].at <= hits[1].at - hits[1].windowMs;
    hide Kept, Pruned, Times;
    PrunedExactly(hits, 500 - 1000);
  }

  function SharedLimit(unit: Unit): Limit {
    Limit("shared", Global, None, None, None, 10, unit, None, Sliding, Refuse, 0)
  }

  function SharedLimits(): seq<Limit> { [SharedLimit(Minute), SharedLimit(Second)] }

  function CallAt(at: int): Request { Request("api", "op", "c", None, at) }

  lemma SharedApply(at: int)
    ensures ApplicableLimits(SharedLimits(), CallAt(at)) == SharedLimits()
  {
    var m, s, r := SharedLimit(Minute), SharedLimit(Second), CallAt(at);
    FilterAppend([], m, AppliesTo(r));
    FilterAppend([m], s, AppliesTo(r));
    assert [] + [m] == [m] && [m] + [s] == [m, s];
    assert Filter([m, s], AppliesTo(r)) == [m, s];
    assert StableSort([m], NotAfter) == [m] by { assert [m][..0] == []; }
    assert StableSort([m, s], NotAfter) == [m, s] by { assert [m, s][..1] == [m]; }
  }

  lemma SharedHits(at: int)
    ensures HitsOn(SharedLimits(), CallAt(at), "shared:global") == [Hit(at, 60_000), Hit(at, 1_000)]
  {
    var m, s, r := SharedLimit(Minute), SharedLimit(Second), CallAt(at);
    assert CounterKey(m, r) == "shared" + ":" + "global" == "shared:global";
    assert CounterKey(s, r) == "shared" + ":" + "global";
    assert [m, s][..1] == [m] && [m][..0] == [];
    assert HitsOn([m], r, "shared:global") == [Hit(at, 60_000)];
  }

  /**
   * Two limits with one id share a counter whatever their windows: each request counts twice, and the
   * narrow window prunes what the wide one still had to count, even in time order.
   */
  lemma SharedCounterForgets()
    ensures var requests := [CallAt(0), CallAt(5_000)]; var hits := AllHits(SharedLimits(), requests, "shared:global");
            && InOrder(requests)
            && hits == [Hit(0, 60_000), Hit(0, 1_000), Hit(5_000, 60_000), Hit(5_000, 1_000)]
            && Forgotten(hits, 6_000 - 60_000)
            && |Kept(Get(RunHits(SharedLimits(), requests), "shared:global"), 6_000 - 60_000)| < |Kept(Times(hits), 6_000 - 60_000)|
  {
    hide *;
    SharedRun();
    SharedInOrder();
    CountExactly(SharedLimits(), [CallAt(0), CallAt(5_000)], "shared:global", 6_000 - 60_000);
  }

  lemma SharedInOrder()
    ensures InOrder([CallAt(0), CallAt(5_000)])
    ensures Forgotten([Hit(0, 60_000), Hit(0, 1_000), Hit(5_000, 60_000), Hit(5_000, 1_000)], 6_000 - 60_000)
  {
    var hits := [Hit(0, 60_000), Hit(0, 1_000), Hit(5_000, 60_000), Hit(5_000, 1_000)];
    assert hits[1].at <= hits[3].at - hits[3].windowMs;
  }

  lemma SharedRun()
    ensures AllHits(SharedLimits(), [CallAt(0), CallAt(5_000)], "shared:global")
            == [Hit(0, 60_000), Hit(0, 1_000), Hit(5_000, 60_000), Hit(5_000, 1_000)]
  {
    var requests, key := [CallAt(0), CallAt(5_000)], "shared:global";
    SharedApply(0);
    SharedApply(5_000);
    SharedHits(0);
    SharedHits(5_000);
    assert requests[..1] == [CallAt(0)] && [CallAt(0)][..0] == [];
    hide ApplicableLimits, HitsOn, SharedLimits, CallAt;
    assert AllHits(SharedLimits(), [CallAt(0)], key) == [Hit(0, 60_000), Hit(0, 1_000)];
  }

  lemma CeilDivBounds(n: int)
    ensures 1000 * (CeilDiv(n, 1000) - 1) < n <= 1000 * CeilDiv(n, 1000)
  {
  }

  lemma FixedWindow(at: int, u: Unit)
    ensures var start := at / u.Ms() * u.Ms(); start <= at < start + u.Ms() && (start + u.Ms()) % u.Ms() == 0
  {
    match u
    case Second =>
    case Minute =>
    case Hour =>
    case Day =>
  }

  /**
   * What a caller is told to wait. A fixed window names its own end; a sliding one names the
   * request's instant, so the advice is always one second, however full the window is.
   */
  lemma AdvisedWait(l: Limit, r: Request, count: nat)
    ensures var d := DecisionFor(l, r, count);
            && (l.strategy.Sliding? ==> d.resetAt == r.at && d.retryAfterSeconds == 1)
            && (l.strategy.Fixed? ==>
                  && r.at < d.resetAt <= r.at + l.unit.Ms()
                  && d.resetAt % l.unit.Ms() == 0
                  && r.at + 1000 * (d.retryAfterSeconds - 1) < d.resetAt <= r.at + 1000 * d.retryAfterSeconds)
  {
    if l.strategy.Fixed? { FixedWindow(r.at, l.unit); }
    var resetAt := WindowStart(l, r.at) + l.unit.Ms();
    assert l.strategy.Sliding? ==> resetAt == r.at;
    assert l.strategy.Fixed? ==> r.at < resetAt <= r.at + l.unit.Ms() && resetAt % l.unit.Ms() == 0;
    CeilDivBounds(resetAt - r.at);
    assert CeilDiv(0, 1000) == 0;
    hide WindowStart, CeilDiv;
  }

  // --- whether the advised wait is enough -------------------------------------

  /** Counted again at `at`, with nothing else having come, the request is inside the limit. */
  predicate RetryFits(l: Limit, hits: seq<int>, at: int) { |Kept(hits, at - l.unit.Ms())| + 1 <= l.Ceiling() }

  /** A counter as a request over its limit leaves it: its own hit in, nothing later, too many in the window. */
  ghost predicate LeftByRefusal(l: Limit, at: int, hits: seq<int>) {
    at in hits && (forall t :: t in hits ==> t <= at) && |Kept(hits, at - l.unit.Ms())| > l.Ceiling()
  }

  function AdvisedAt(l: Limit, r: Request, count: nat): int { r.at + 1000 * DecisionFor(l, r, count).retryAfterSeconds }

  /** The store's own count after the wait, whatever the limit's strategy. */
  lemma RetryCounts(l: Limit, hits: Hits, key: string, at: int)
    ensures HitCount(hits, key, at, l.unit.Ms()) <= l.Ceiling() <==> RetryFits(l, Get(hits, key), at)
  {
  }

  function Copies(t: int, n: nat): (r: seq<int>)
    ensures |r| == n && forall i :: 0 <= i < n ==> r[i] == t
  {
    seq(n, _ => t)
  }

  lemma KeptAll(times: seq<int>, cutoff: int)
    requires forall i :: 0 <= i < |times| ==> times[i] > cutoff
    ensures |Kept(times, cutoff)| == |times|
  {
    FilterFull(times, After(cutoff));
  }

  lemma KeptNone(times: seq<int>, cutoff: int)
    requires forall i :: 0 <= i < |times| ==> times[i] <= cutoff
    ensures |Kept(times, cutoff)| == 0
  {
    FilterEmpty(times, After(cutoff));
  }

  /** Waiting is enough whatever the counter held exactly when it is a whole window, and the limit allows anything. */
  lemma WaitEnoughExactly(l: Limit, at: int, later: int)
    ensures (forall hits :: LeftByRefusal(l, at, hits) ==> RetryFits(l, hits, later))
            <==> l.Ceiling() >= 1 && later - at >= l.unit.Ms()
  {
    hide Kept;
    if l.Ceiling() >= 1 && later - at >= l.unit.Ms() {
      forall hits | LeftByRefusal(l, at, hits) ensures RetryFits(l, hits, later) {
        assert forall i :: 0 <= i < |hits| ==> hits[i] in hits;
        KeptNone(hits, later - l.unit.Ms());
      }
    } else {
      var hits := Copies(at, l.Ceiling() + 1);
      assert hits[0] in hits;
      KeptAll(hits, at - l.unit.Ms());
      assert LeftByRefusal(l, at, hits);
      if l.Ceiling() >= 1 { KeptAll(hits, later - l.unit.Ms()); }
      assert !RetryFits(l, hits, later);
    }
  }

  /** The advice is a whole window for a limit per second, or a fixed window in its first second. */
  lemma AdviceIsWindow(l: Limit, r: Request, count: nat)
    ensures AdvisedAt(l, r, count) - r.at >= l.unit.Ms()
            <==> l.unit.Second? || (l.strategy.Fixed? && r.at - WindowStart(l, r.at) < 1000)
  {
    AdvisedWait(l, r, count);
    if l.strategy.Fixed? { FixedWindow(r.at, l.unit); }
    hide CeilDiv;
  }

  /**
   * A caller who is refused and waits as advised fits, whatever else the counter held, exactly when the
   * limit is per second, or its fixed window was in its first second; and it allows anything at all.
   */
  lemma AdviceEnoughExactly(l: Limit, r: Request, count: nat)
    ensures (forall hits :: LeftByRefusal(l, r.at, hits) ==> RetryFits(l, hits, AdvisedAt(l, r, count)))
            <==> l.Ceiling() >= 1 && (l.unit.Second? || (l.strategy.Fixed? && r.at - WindowStart(l, r.at) < 1000))
  {
    hide Kept, RetryFits, LeftByRefusal, AdvisedAt, WindowStart;
    WaitEnoughExactly(l, r.at, AdvisedAt(l, r, count));
    AdviceIsWindow(l, r, count);
  }

  // One call a minute, in fixed and in sliding windows, after two calls half way through one.

  function OnceAMinute(strategy: Strategy): Limit { Limit("once", Global, None, None, None, 1, Minute, None, strategy, Refuse, 0) }

  /** Told to wait for the window's end, or for a second, the caller is refused again: the store slides under either. */
  lemma AdviceFallsShort()
    ensures var hits, r := [30_000, 31_000], CallAt(31_000);
            && LeftByRefusal(OnceAMinute(Fixed), 31_000, hits)
            && DecisionFor(OnceAMinute(Fixed), r, 2).retryAfterSeconds == 29
            && DecisionFor(OnceAMinute(Sliding), r, 2).retryAfterSeconds == 1
            && !RetryFits(OnceAMinute(Fixed), hits, AdvisedAt(OnceAMinute(Fixed), r, 2))
            && !RetryFits(OnceAMinute(Sliding), hits, AdvisedAt(OnceAMinute(Sliding), r, 2))
  {
    var hits := [30_000, 31_000];
    hide Kept;
    assert hits[1] in hits;
    KeptAll(hits, 31_000 - 60_000);
    KeptAll(hits, 60_000 - 60_000);
    KeptAll(hits, 32_000 - 60_000);
  }
}
