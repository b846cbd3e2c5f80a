/** What each call on agent memory stores, recalls, touches and drops, in the fields of the entries. */
module AgentMemoryRecords {
  import opened Text
  import opened JsMap
  import opened Sorting
  import opened AgentMemory
  import opened AgentMemoryRuns

  // --- remembering ------------------------------------------------------------

  /** Not given, or empty. */
  predicate Missing(id: Option<string>) { id == None || id.value == "" }

  /** What a memory is refused for: the first of these that holds; otherwise it is stored as given, to live as asked or as its scope does. */
  lemma RememberedExactly(c: Config, i: NewMemory, id: string, now: int)
    ensures var day := 24 * 60 * 60 * 1000;
            var ttl := if i.ttlMs.Some? then i.ttlMs.value
                       else if i.scope == Session then day / 2 else if i.scope == Conversation then day
                       else if i.scope == User then 90 * day else 365 * day;
            var entry := Entry(id, i.scope, i.organizationId, i.userId, i.conversationId, i.sessionId, i.agentId, i.key, i.value, now + ttl, now, 0);
            Verdict(c, i, id, now)
            == if i.scope !in c.policy.writableScopes then ScopeDenied
               else if (i.scope == Conversation && Missing(i.conversationId)) || (i.scope == Session && Missing(i.sessionId))
                       || ((i.scope == User || i.scope == LongTerm) && Missing(i.userId)) then Unscoped
               else if c.policy.rejectPii && c.findsPii.Some? && c.findsPii.value(i.value) then PersonalData
               else if !c.fits(entry) then Invalid
               else Stored(entry)
  {
  }

  /** What is refused changes nothing; what is stored is there afterwards, as it was answered. */
  lemma RememberedStays(c: Config, m: Entries, i: NewMemory, id: string, now: int)
    requires m.Valid() && c.policy.Valid()
    ensures var r := RememberStep(c, m, i, id, now);
            match Verdict(c, i, id, now)
            case Stored(e) => e.id in r.vals && r.vals[e.id] == e
            case _ => r == m
  {
    hide Evicted, Verdict;
  }

  /** The cap counts together the memories of one tenant, one scope, and the one user, conversation or session the scope is for. */
  lemma SameSubjectExactly(x: Entry, y: Entry)
    ensures SubjectOf(x) == SubjectOf(y) <==>
              x.organizationId == y.organizationId && x.scope == y.scope
              && (x.scope in {User, LongTerm} ==> x.userId == y.userId)
              && (x.scope == Conversation ==> x.conversationId == y.conversationId)
              && (x.scope == Session ==> x.sessionId == y.sessionId)
  {
  }

  // --- recalling --------------------------------------------------------------

  /** The memories a recall may see. */
  predicate MaySee(p: Policy, i: RecallInput, e: Entry) {
    && e.organizationId == i.organizationId && e.scope in p.readableScopes
    && (e.scope in {User, LongTerm} ==> i.userId == Given(e.userId))
    && (e.scope == Conversation ==> i.conversationId == Given(e.conversationId))
    && (e.scope == Session ==> i.sessionId == Given(e.sessionId))
    && (e.agentId == None || Missing(i.agentId) || e.agentId == i.agentId)
    && (i.search(e.key) || i.search(e.value))
  }

  lemma MaySeeIsVisible(p: Policy, i: RecallInput, e: Entry)
    ensures Visible(QueryFor(p, i), e) <==> MaySee(p, i, e)
    ensures MaySee(p, i, e) <==>
              && e.organizationId == i.organizationId && e.scope in p.readableScopes
              && (e.scope == User || e.scope == LongTerm ==> i.userId == Given(e.userId))
              && (e.scope == Conversation ==> i.conversationId == Given(e.conversationId))
              && (e.scope == Session ==> i.sessionId == Given(e.sessionId))
              && (e.agentId.Some? && i.agentId.Some? && i.agentId != Some("") ==> e.agentId == i.agentId)
              && (i.search(e.key) || i.search(e.value))
  {
  }

  /** The stored memories a recall may see, each once. */
  function Candidates(p: Policy, m: Entries, i: RecallInput): set<string> { set k | k in m.vals && MaySee(p, i, m.vals[k]) }

  lemma RankedAreCandidates(p: Policy, m: Entries, i: RecallInput)
    requires Keyed(m)
    ensures IdSet(Ranked(m, QueryFor(p, i))) == Candidates(p, m, i)
    ensures |Ranked(m, QueryFor(p, i))| == |Candidates(p, m, i)|
  {
    var ranked := Ranked(m, QueryFor(p, i));
    RankedContents(m, QueryFor(p, i));
    RankedApart(m, QueryFor(p, i));
    DistinctSize(ranked);
    hide Ranked, Visible, MaySee, Ordered;
    forall e ensures Visible(QueryFor(p, i), e) <==> MaySee(p, i, e) { MaySeeIsVisible(p, i, e); }
    forall k | k in Candidates(p, m, i) ensures k in IdSet(ranked) { assert m.vals[k] in ranked; }
  }

  /**
   * While the limit asked for, or without one the policy's, has room for all a recall may see, it returns
   * exactly what of that has not expired.
   */
  lemma RecalledExactly(p: Policy, m: Entries, i: RecallInput, now: int)
    requires Keyed(m) && |Candidates(p, m, i)| <= if i.limit.Some? then i.limit.value else p.maxRecall
    ensures forall e :: e in Recalled(p, m, i, now) <==> e.id in m.vals && m.vals[e.id] == e && MaySee(p, i, e) && e.expiresAt > now
  {
    var ranked := Ranked(m, QueryFor(p, i));
    RankedAreCandidates(p, m, i);
    RankedContents(m, QueryFor(p, i));
    hide Ranked, Visible, MaySee, Candidates;
    assert RunQuery(m, QueryFor(p, i)) == ranked;
    forall e ensures Visible(QueryFor(p, i), e) <==> MaySee(p, i, e) { MaySeeIsVisible(p, i, e); }
  }

  // --- touching ---------------------------------------------------------------

  /** These are marked used at this moment, once more; the rest are as they were. */
  ghost predicate Marked(m: Entries, r: Entries, ids: seq<string>, now: int) {
    r.vals.Keys == m.vals.Keys
    && forall k :: k in m.vals ==>
         r.vals[k] == if k in ids then m.vals[k].(lastAccessedAt := now, accessCount := m.vals[k].accessCount + 1) else m.vals[k]
  }

  lemma MarkedOneMore(m: Entries, r: Entries, ids: seq<string>, id: string, now: int)
    requires r.Valid() && Marked(m, r, ids, now) && id in m.vals && id !in ids
    ensures Marked(m, r.Set(id, Touched(r.vals[id], now)), ids + [id], now)
  {
    assert r.Set(id, Touched(r.vals[id], now)).vals.Keys == m.vals.Keys;
  }

  lemma {:induction false} TouchedOnce(m: Entries, ids: seq<string>, now: int)
    requires m.Valid() && (forall j, k :: 0 <= j < k < |ids| ==> ids[j] != ids[k]) && forall k :: 0 <= k < |ids| ==> ids[k] in m.vals
    ensures Marked(m, TouchAll(m, ids, now), ids, now)
  {
    if ids != [] {
      var front, last := ids[..|ids| - 1], ids[|ids| - 1];
      assert ids == front + [last] && last !in front;
      TouchedOnce(m, front, now);
      var before := TouchAll(m, front, now);
      assert last in before.vals;
      hide Marked;
      MarkedOneMore(m, before, front, last, now);
    }
  }

  lemma {:induction false} FilterApart(xs: seq<Entry>, now: int)
    requires Ordered(xs, DifferentIds)
    ensures Ordered(Filter(xs, LiveAt(now)), DifferentIds)
  {
    FilterPairwise(xs, LiveAt(now), DifferentIds);
  }

  /** Exactly what a recall returns is marked used, now and once more; nothing else moves. */
  lemma RecallTouches(p: Policy, m: Entries, i: RecallInput, now: int)
    requires Keyed(m)
    ensures var r := RecallStep(p, m, i, now);
            r.vals.Keys == m.vals.Keys
            && forall k :: k in m.vals ==>
                 r.vals[k] == if m.vals[k] in Recalled(p, m, i, now)
                              then m.vals[k].(lastAccessedAt := now, accessCount := m.vals[k].accessCount + 1) else m.vals[k]
  {
    var recalled := Recalled(p, m, i, now);
    RankedApart(m, QueryFor(p, i));
    FilterApart(RunQuery(m, QueryFor(p, i)), now);
    RecalledAre(p, m, i, now);
    var ids := Ids(recalled);
    hide Recalled, TouchAll, Visible, RunQuery, Ranked;
    forall j, k | 0 <= j < k < |ids| ensures ids[j] != ids[k] { assert DifferentIds(recalled[j], recalled[k]); }
    forall k | 0 <= k < |ids| ensures ids[k] in m.vals { assert recalled[k] in recalled; }
    TouchedOnce(m, ids, now);
    forall k | k in m.vals ensures k in ids <==> m.vals[k] in recalled {
      if k in ids {
        var j :| 0 <= j < |ids| && ids[j] == k;
        assert recalled[j] in recalled;
      }
      if m.vals[k] in recalled {
        var j :| 0 <= j < |recalled| && recalled[j] == m.vals[k];
        assert ids[j] == k;
      }
    }
  }

  // --- dropping ---------------------------------------------------------------

  /** Forgetting one memory takes it only from its own tenant; a purge takes what has expired. */
  lemma DroppedExactly(c: Config, m: Entries, op: Op)
    requires m.Valid() && c.policy.Valid() && (op.DoForget? || op.DoPurge?)
    ensures var r := AgentMemoryRuns.Step(c, m, op);
            && (forall k :: k in r.vals <==>
                  k in m.vals && (if op.DoForget? then k != op.id || m.vals[k].organizationId != op.organizationId else m.vals[k].expiresAt > op.now))
            && forall k :: k in r.vals ==> r.vals[k] == m.vals[k]
  {
    hide DeleteWhere;
  }
}
