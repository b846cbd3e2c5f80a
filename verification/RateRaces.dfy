/** Rate checks that overlap: each limit of a check counts in a step of its own, and other checks count in between. */
module RateRaces {
  import opened Text
  import opened Sorting
  import opened RateLimits

  /** A check that has counted against the first `done` of its limits. */
  datatype Check = Check(r: Request, done: nat, refused: bool)

  /** One count made: by which check, for which limit, and what it returned. */
  datatype Made = Made(n: nat, l: Limit, r: Request, count: nat)

  /** `log` lists the counts in the order they were made. */
  datatype State = State(hits: Hits, checks: map<nat, Check>, log: seq<Made>)

  datatype Step = Begin(n: nat, r: Request) | Count(n: nat)

  predicate Enabled(limits: seq<Limit>, s: State, step: Step) {
    match step
    case Begin(n, _) => n !in s.checks
    case Count(n) => n in s.checks && s.checks[n].done < |ApplicableLimits(limits, s.checks[n].r)|
  }

  /** The check goes on to its next limit, whatever this one said. */
  function Counted(limits: seq<Limit>, s: State, n: nat): State
    requires Enabled(limits, s, Count(n))
  {
    var c := s.checks[n];
    var l := ApplicableLimits(limits, c.r)[c.done];
    var count := HitCount(s.hits, CounterKey(l, c.r), c.r.at, l.unit.Ms());
    State(AfterHit(s.hits, CounterKey(l, c.r), c.r.at, l.unit.Ms()),
          s.checks[n := Check(c.r, c.done + 1, c.refused || (l.action.Refuse? && count > l.Ceiling()))],
          s.log + [Made(n, l, c.r, count)])
  }

  /** One step; a step that is not enabled changes nothing. */
  function Next(limits: seq<Limit>, s: State, step: Step): State {
    if !Enabled(limits, s, step) then s
    else match step
      case Begin(n, r) => s.(checks := s.checks[n := Check(r, 0, false)])
      case Count(n) => Counted(limits, s, n)
  }

  function Run(limits: seq<Limit>, steps: seq<Step>): State {
    if steps == [] then State(map[], map[], []) else Next(limits, Run(limits, steps[..|steps| - 1]), steps[|steps| - 1])
  }

  /** It has counted against all its limits, and no refusing one was above its ceiling. */
  predicate Allowed(limits: seq<Limit>, s: State, n: nat) {
    n in s.checks && s.checks[n].done == |ApplicableLimits(limits, s.checks[n].r)| && !s.checks[n].refused
  }

  // --- a check that runs alone ------------------------------------------------

  function CountTimes(limits: seq<Limit>, s: State, n: nat, times: nat): State {
    if times == 0 then s else Next(limits, CountTimes(limits, s, n, times - 1), Count(n))
  }

  ghost predicate RefusedUpTo(hits: Hits, ls: seq<Limit>, r: Request, i: nat)
    requires i <= |ls|
  {
    exists j :: 0 <= j < i && ls[j].action.Refuse? && BreachedAt(hits, ls, r, j)
  }

  lemma RefusedNext(hits: Hits, ls: seq<Limit>, r: Request, i: nat)
    requires i < |ls|
    ensures RefusedUpTo(hits, ls, r, i + 1)
            <==> RefusedUpTo(hits, ls, r, i) || (ls[i].action.Refuse? && CountAt(hits, ls, r, i) > ls[i].Ceiling())
  {
    hide CountAt;
    assert BreachedAt(hits, ls, r, i) <==> CountAt(hits, ls, r, i) > ls[i].Ceiling();
  }

  lemma CountsNext(limits: seq<Limit>, hits: Hits, t: State, n: nat, r: Request, i: nat)
    requires i < |ApplicableLimits(limits, r)| && n in t.checks
    requires var ls := ApplicableLimits(limits, r); t.hits == HitAll(hits, ls[..i], r) && t.checks[n] == Check(r, i, RefusedUpTo(hits, ls, r, i))
    ensures var ls := ApplicableLimits(limits, r); var u := Next(limits, t, Count(n));
            u.hits == HitAll(hits, ls[..i + 1], r) && u.checks == t.checks[n := Check(r, i + 1, RefusedUpTo(hits, ls, r, i + 1))]
  {
    var ls := ApplicableLimits(limits, r);
    hide ApplicableLimits, AfterHit, HitCount, CounterKey, HitAll, RefusedUpTo;
    HitAllStep(hits, ls, r, i);
    RefusedNext(hits, ls, r, i);
  }

  lemma {:induction false} CountsInTurn(limits: seq<Limit>, s: State, n: nat, r: Request, i: nat)
    requires n in s.checks && s.checks[n] == Check(r, 0, false) && i <= |ApplicableLimits(limits, r)|
    ensures var ls := ApplicableLimits(limits, r); var t := CountTimes(limits, s, n, i);
            t.hits == HitAll(s.hits, ls[..i], r) && t.checks == s.checks[n := Check(r, i, RefusedUpTo(s.hits, ls, r, i))]
  {
    hide *;
    Unstarted(limits, s, n, r);
    if i > 0 {
      CountsInTurn(limits, s, n, r, i - 1);
      CountsNext(limits, s.hits, CountTimes(limits, s, n, i - 1), n, r, i - 1);
      OneTimeMore(limits, s, n, i);
    }
  }

  lemma Unstarted(limits: seq<Limit>, s: State, n: nat, r: Request)
    ensures var ls := ApplicableLimits(limits, r);
            HitAll(s.hits, ls[..0], r) == s.hits && !RefusedUpTo(s.hits, ls, r, 0) && CountTimes(limits, s, n, 0) == s
  {
  }

  lemma OneTimeMore(limits: seq<Limit>, s: State, n: nat, i: nat)
    requires i > 0
    ensures CountTimes(limits, s, n, i) == Next(limits, CountTimes(limits, s, n, i - 1), Count(n))
  {
  }

  /** With nothing in between, its counts and its verdict are those of the check as it runs alone. */
  lemma AloneIsCheck(limits: seq<Limit>, s: State, n: nat, r: Request)
    requires n !in s.checks
    ensures var ls := ApplicableLimits(limits, r); var t := CountTimes(limits, Next(limits, s, Begin(n, r)), n, |ls|);
            t.hits == HitAll(s.hits, ls, r) && (Allowed(limits, t, n) <==> Permits(s.hits, ls, r))
  {
    var ls := ApplicableLimits(limits, r);
    assert ls[..|ls|] == ls;
    hide ApplicableLimits, HitAll, CountAt;
    CountsInTurn(limits, Next(limits, s, Begin(n, r)), n, r, |ls|);
  }

  // --- what the log says ------------------------------------------------------

  /** The counts made on a counter, in order. */
  function HitsOf(log: seq<Made>, key: string): seq<Hit> {
    if log == [] then []
    else
      var e, rest := log[|log| - 1], HitsOf(log[..|log| - 1], key);
      if CounterKey(e.l, e.r) == key then rest + [Hit(e.r.at, e.l.unit.Ms())] else rest
  }

  /** A count of this check is in the log, within the ceiling where it matters. */
  ghost predicate Logged(log: seq<Made>, n: nat, l: Limit, r: Request, refused: bool) {
    exists k :: 0 <= k < |log| && log[k].n == n && log[k].l == l && log[k].r == r
                && (l.action.Refuse? && !refused ==> log[k].count <= l.Ceiling())
  }

  ghost predicate CheckLogged(limits: seq<Limit>, log: seq<Made>, n: nat, c: Check) {
    var ls := ApplicableLimits(limits, c.r);
    c.done <= |ls| && forall i :: 0 <= i < c.done ==> Logged(log, n, ls[i], c.r, c.refused)
  }

  /** Each count is of one of the limits, and returned what the counts made before it on that counter leave. */
  ghost predicate TrueAt(limits: seq<Limit>, log: seq<Made>, k: nat)
    requires k < |log|
  {
    var e := log[k]; var key := CounterKey(e.l, e.r);
    e.l in limits && e.count == |Kept(Pruned([], HitsOf(log[..k], key)), e.r.at - e.l.unit.Ms())| + 1
  }

  ghost predicate Invariant(limits: seq<Limit>, s: State) {
    && (forall key :: Get(s.hits, key) == Pruned([], HitsOf(s.log, key)))
    && (forall k :: 0 <= k < |s.log| ==> TrueAt(limits, s.log, k))
    && (forall n :: n in s.checks ==> CheckLogged(limits, s.log, n, s.checks[n]))
  }

  lemma HitsOfAppend(log: seq<Made>, e: Made, key: string)
    ensures HitsOf(log + [e], key) == HitsOf(log, key) + if CounterKey(e.l, e.r) == key then [Hit(e.r.at, e.l.unit.Ms())] else []
  {
    assert (log + [e])[..|log|] == log;
    hide CounterKey;
  }

  lemma HitsKept(s: State, e: Made, key: string)
    requires forall k :: Get(s.hits, k) == Pruned([], HitsOf(s.log, k))
    ensures Get(AfterHit(s.hits, CounterKey(e.l, e.r), e.r.at, e.l.unit.Ms()), key) == Pruned([], HitsOf(s.log + [e], key))
  {
    hide CounterKey, AfterHit, Pruned, HitsOf, Get, Kept;
    var h := Hit(e.r.at, e.l.unit.Ms());
    AfterHitOn(s.hits, CounterKey(e.l, e.r), e.r.at, e.l.unit.Ms(), key);
    HitsOfAppend(s.log, e, key);
    PrunedStep([], HitsOf(s.log, key), h);
    assert HitsOf(s.log, key) + [] == HitsOf(s.log, key);
  }

  lemma LoggedLater(log: seq<Made>, e: Made, n: nat, l: Limit, r: Request, refused: bool, now: bool)
    requires Logged(log, n, l, r, refused) && (refused ==> now)
    ensures Logged(log + [e], n, l, r, now)
  {
    var k :| 0 <= k < |log| && log[k].n == n && log[k].l == l && log[k].r == r
      && (l.action.Refuse? && !refused ==> log[k].count <= l.Ceiling());
    assert (log + [e])[k] == log[k];
  }

  lemma CheckLoggedLater(limits: seq<Limit>, log: seq<Made>, e: Made, n: nat, c: Check)
    requires CheckLogged(limits, log, n, c)
    ensures CheckLogged(limits, log + [e], n, c)
  {
    var ls := ApplicableLimits(limits, c.r);
    hide ApplicableLimits, Logged;
    forall i | 0 <= i < c.done ensures Logged(log + [e], n, ls[i], c.r, c.refused) {
      LoggedLater(log, e, n, ls[i], c.r, c.refused, c.refused);
    }
  }

  lemma OwnLogged(limits: seq<Limit>, log: seq<Made>, n: nat, c: Check, count: nat)
    requires CheckLogged(limits, log, n, c) && c.done < |ApplicableLimits(limits, c.r)|
    ensures var l := ApplicableLimits(limits, c.r)[c.done];
            CheckLogged(limits, log + [Made(n, l, c.r, count)], n,
                        Check(c.r, c.done + 1, c.refused || (l.action.Refuse? && count > l.Ceiling())))
  {
    var ls := ApplicableLimits(limits, c.r);
    var l := ls[c.done];
    var e, now := Made(n, l, c.r, count), c.refused || (l.action.Refuse? && count > l.Ceiling());
    hide ApplicableLimits;
    assert Logged(log + [e], n, l, c.r, now) by { assert (log + [e])[|log|] == e; }
    hide Logged;
    forall i | 0 <= i < c.done ensures Logged(log + [e], n, ls[i], c.r, now) {
      LoggedLater(log, e, n, ls[i], c.r, c.refused, now);
    }
  }

  lemma TrueLater(limits: seq<Limit>, log: seq<Made>, e: Made, k: nat)
    requires k < |log| && TrueAt(limits, log, k)
    ensures TrueAt(limits, log + [e], k)
  {
    assert (log + [e])[..k] == log[..k];
    hide HitsOf, Kept, Pruned, CounterKey;
  }

  lemma CountIsTrue(limits: seq<Limit>, hits: Hits, log: seq<Made>, e: Made)
    requires Get(hits, CounterKey(e.l, e.r)) == Pruned([], HitsOf(log, CounterKey(e.l, e.r)))
    requires e.l in limits && e.count == HitCount(hits, CounterKey(e.l, e.r), e.r.at, e.l.unit.Ms())
    ensures TrueAt(limits, log + [e], |log|)
  {
    hide HitsOf, Kept, Pruned, CounterKey, Get;
    assert (log + [e])[..|log|] == log && (log + [e])[|log|] == e;
  }

  lemma CountedLogs(limits: seq<Limit>, s: State, n: nat) returns (e: Made)
    requires Enabled(limits, s, Count(n))
    ensures var t, c := Counted(limits, s, n), s.checks[n];
            && t.log == s.log + [e] && e.n == n && e.r == c.r && e.l == ApplicableLimits(limits, c.r)[c.done] && e.l in limits
            && e.count == HitCount(s.hits, CounterKey(e.l, e.r), e.r.at, e.l.unit.Ms())
            && t.hits == AfterHit(s.hits, CounterKey(e.l, e.r), e.r.at, e.l.unit.Ms())
            && t.checks == s.checks[n := Check(c.r, c.done + 1, c.refused || (e.l.action.Refuse? && e.count > e.l.Ceiling()))]
  {
    var c := s.checks[n];
    var l := ApplicableLimits(limits, c.r)[c.done];
    assert l in ApplicableLimits(limits, c.r);
    hide ApplicableLimits, CounterKey, HitCount, AfterHit;
    e := Made(n, l, c.r, HitCount(s.hits, CounterKey(l, c.r), c.r.at, l.unit.Ms()));
  }

  lemma ChecksLogged(limits: seq<Limit>, s: State, t: State, e: Made)
    requires e.n in s.checks && forall m :: m in s.checks ==> CheckLogged(limits, s.log, m, s.checks[m])
    requires s.checks[e.n].done < |ApplicableLimits(limits, s.checks[e.n].r)|
    requires e.r == s.checks[e.n].r && e.l == ApplicableLimits(limits, e.r)[s.checks[e.n].done]
    requires t.checks == s.checks[e.n := Check(e.r, s.checks[e.n].done + 1, s.checks[e.n].refused || (e.l.action.Refuse? && e.count > e.l.Ceiling()))]
    requires t.log == s.log + [e]
    ensures forall m :: m in t.checks ==> CheckLogged(limits, t.log, m, t.checks[m])
  {
    hide ApplicableLimits, CheckLogged;
    OwnLogged(limits, s.log, e.n, s.checks[e.n], e.count);
    forall m | m in t.checks ensures CheckLogged(limits, t.log, m, t.checks[m]) {
      if m != e.n { CheckLoggedLater(limits, s.log, e, m, s.checks[m]); }
    }
  }

  lemma HitsHold(s: State, hits: Hits, e: Made)
    requires forall key :: Get(s.hits, key) == Pruned([], HitsOf(s.log, key))
    requires hits == AfterHit(s.hits, CounterKey(e.l, e.r), e.r.at, e.l.unit.Ms())
    ensures forall key :: Get(hits, key) == Pruned([], HitsOf(s.log + [e], key))
  {
    hide CounterKey, AfterHit, HitsOf, Pruned, Get;
    forall key ensures Get(hits, key) == Pruned([], HitsOf(s.log + [e], key)) { HitsKept(s, e, key); }
  }

  lemma LogHolds(limits: seq<Limit>, s: State, e: Made)
    requires forall key :: Get(s.hits, key) == Pruned([], HitsOf(s.log, key))
    requires forall k :: 0 <= k < |s.log| ==> TrueAt(limits, s.log, k)
    requires e.l in limits && e.count == HitCount(s.hits, CounterKey(e.l, e.r), e.r.at, e.l.unit.Ms())
    ensures forall k :: 0 <= k < |s.log + [e]| ==> TrueAt(limits, s.log + [e], k)
  {
    var key := CounterKey(e.l, e.r);
    assert Get(s.hits, key) == Pruned([], HitsOf(s.log, key));
    hide *;
    CountIsTrue(limits, s.hits, s.log, e);
    forall k | 0 <= k < |s.log + [e]| ensures TrueAt(limits, s.log + [e], k) {
      if k < |s.log| { TrueLater(limits, s.log, e, k); }
    }
  }

  lemma CountKeeps(limits: seq<Limit>, s: State, n: nat)
    requires Invariant(limits, s) && Enabled(limits, s, Count(n))
    ensures Invariant(limits, Counted(limits, s, n))
  {
    hide Counted, ApplicableLimits, CounterKey, HitCount, AfterHit, HitsOf, Pruned, TrueAt, CheckLogged, Get;
    var t := Counted(limits, s, n);
    var e := CountedLogs(limits, s, n);
    HitsHold(s, t.hits, e);
    LogHolds(limits, s, e);
    ChecksLogged(limits, s, t, e);
  }

  lemma {:induction false} RunInvariant(limits: seq<Limit>, steps: seq<Step>)
    ensures Invariant(limits, Run(limits, steps))
  {
    hide ApplicableLimits, Kept, CounterKey;
    if steps != [] {
      RunInvariant(limits, steps[..|steps| - 1]);
      var s, step := Run(limits, steps[..|steps| - 1]), steps[|steps| - 1];
      hide Run, Counted, Pruned, HitsOf, TrueAt;
      if step.Count? && Enabled(limits, s, step) { CountKeeps(limits, s, step.n); }
    }
  }

  // --- the window under overlap -----------------------------------------------

  /** A count of this limit, for an arrival in `(start, start + window]`, that was within its ceiling. */
  predicate Passes(e: Made, l: Limit, key: string, start: int) {
    e.l == l && CounterKey(e.l, e.r) == key && start < e.r.at <= start + l.unit.Ms() && e.count <= l.Ceiling()
  }

  function Passed(log: seq<Made>, l: Limit, key: string, start: int): set<nat> {
    if log == [] then {}
    else
      var e, rest := log[|log| - 1], Passed(log[..|log| - 1], l, key, start);
      if Passes(e, l, key, start) then rest + {e.n} else rest
  }

  lemma {:induction false} PassedHas(log: seq<Made>, l: Limit, key: string, start: int, k: nat)
    requires k < |log| && Passes(log[k], l, key, start)
    ensures log[k].n in Passed(log, l, key, start)
  {
    hide Passes;
    if k < |log| - 1 { PassedHas(log[..|log| - 1], l, key, start, k); }
  }

  lemma {:induction false} PassedWereCounted(log: seq<Made>, l: Limit, key: string, start: int)
    ensures |Passed(log, l, key, start)| <= |Kept(Times(HitsOf(log, key)), start)|
  {
    if log != [] {
      var front, e := log[..|log| - 1], log[|log| - 1];
      PassedWereCounted(front, l, key, start);
      assert log == front + [e];
      HitsOfAppend(front, e, key);
      hide Kept, HitsOf, CounterKey;
      if CounterKey(e.l, e.r) == key {
        TimesStep(HitsOf(front, key), Hit(e.r.at, e.l.unit.Ms()));
        KeptAppend(Times(HitsOf(front, key)), e.r.at, start);
      }
    }
  }

  /** On this counter no arrival from past the interval was counted ahead of one from inside it. */
  ghost predicate InTurn(log: seq<Made>, key: string, start: int, end: int) {
    forall j, k :: 0 <= j < k < |log| && CounterKey(log[j].l, log[j].r) == key == CounterKey(log[k].l, log[k].r) ==>
      start < log[k].r.at <= end ==> log[j].r.at <= end
  }

  lemma {:induction false} HitsOfBounded(log: seq<Made>, key: string, windowMs: int, end: int)
    requires forall k :: 0 <= k < |log| && CounterKey(log[k].l, log[k].r) == key ==> log[k].r.at <= end && log[k].l.unit.Ms() == windowMs
    ensures forall i :: 0 <= i < |HitsOf(log, key)| ==> HitsOf(log, key)[i].at <= end && HitsOf(log, key)[i].windowMs == windowMs
  {
    hide CounterKey;
    if log != [] { HitsOfBounded(log[..|log| - 1], key, windowMs, end); }
  }

  /** What the last count saw, when it was in turn: at least everything that passed before it. */
  lemma CountCoversPassed(limits: seq<Limit>, front: seq<Made>, e: Made, sample: Request, start: int)
    requires KeysApart(limits) && e.l in limits && forall k :: 0 <= k < |front| ==> front[k].l in limits
    requires var key := CounterKey(e.l, sample); Passes(e, e.l, key, start) && InTurn(front + [e], key, start, start + e.l.unit.Ms())
    ensures var key := CounterKey(e.l, sample);
            |Passed(front, e.l, key, start)| <= |Kept(Pruned([], HitsOf(front, key)), e.r.at - e.l.unit.Ms())|
  {
    var l, log := e.l, front + [e];
    var key, end := CounterKey(l, sample), start + l.unit.Ms();
    var hits := HitsOf(front, key);
    hide Kept, Pruned, Times, HitsOf, KeysApart;
    forall k | 0 <= k < |front| && CounterKey(front[k].l, front[k].r) == key ensures front[k].r.at <= end && front[k].l == l {
      assert log[k] == front[k] && log[|front|] == e;
      if front[k].l != l { ApartInList(limits, front[k].l, l, front[k].r, sample); }
    }
    hide CounterKey, InTurn;
    HitsOfBounded(front, key, l.unit.Ms(), end);
    PrunedExactly(hits, start);
    assert !Forgotten(hits, start);
    KeptShrinks(Pruned([], hits), e.r.at - l.unit.Ms(), start);
    PassedWereCounted(front, l, key, start);
  }

  lemma InTurnBefore(front: seq<Made>, e: Made, key: string, start: int, end: int)
    requires InTurn(front + [e], key, start, end)
    ensures InTurn(front, key, start, end)
  {
    hide CounterKey;
    var log := front + [e];
    assert forall k :: 0 <= k < |front| ==> log[k] == front[k];
  }

  lemma TrueBefore(limits: seq<Limit>, front: seq<Made>, e: Made)
    requires forall k :: 0 <= k < |front + [e]| ==> TrueAt(limits, front + [e], k)
    ensures forall k :: 0 <= k < |front| ==> TrueAt(limits, front, k) && front[k].l in limits
    ensures e.l in limits && e.count == |Kept(Pruned([], HitsOf(front, CounterKey(e.l, e.r))), e.r.at - e.l.unit.Ms())| + 1
  {
    hide Kept, Pruned, HitsOf, CounterKey;
    var log := front + [e];
    assert log[|front|] == e && log[..|front|] == front && TrueAt(limits, log, |front|);
    forall k | 0 <= k < |front| ensures TrueAt(limits, front, k) && front[k].l in limits {
      assert log[k] == front[k] && log[..k] == front[..k] && TrueAt(limits, log, k);
    }
  }

  lemma {:induction false} PassedBounded(limits: seq<Limit>, log: seq<Made>, l: Limit, sample: Request, start: int)
    requires KeysApart(limits) && l in limits && forall k :: 0 <= k < |log| ==> TrueAt(limits, log, k)
    requires InTurn(log, CounterKey(l, sample), start, start + l.unit.Ms())
    ensures |Passed(log, l, CounterKey(l, sample), start)| <= l.Ceiling()
  {
    if log != [] {
      var front, e, key := log[..|log| - 1], log[|log| - 1], CounterKey(l, sample);
      assert log == front + [e];
      hide KeysApart, CounterKey, InTurn, TrueAt, Kept, HitsOf, Pruned;
      TrueBefore(limits, front, e);
      InTurnBefore(front, e, key, start, start + l.unit.Ms());
      PassedBounded(limits, front, l, sample, start);
      if Passes(e, l, key, start) { CountCoversPassed(limits, front, e, sample, start); }
    }
  }

  /** The checks of arrivals in `(start, start + window]` that count on `key` and were allowed. */
  function AllowedOn(limits: seq<Limit>, s: State, l: Limit, key: string, start: int): set<nat> {
    set n | n in s.checks && Allowed(limits, s, n) && CountsOn(l, key, s.checks[n].r) && start < s.checks[n].r.at <= start + l.unit.Ms()
  }

  lemma AllowedHavePassed(limits: seq<Limit>, s: State, l: Limit, key: string, start: int, n: nat)
    requires Invariant(limits, s) && l in limits && l.action.Refuse? && n in AllowedOn(limits, s, l, key, start)
    ensures n in Passed(s.log, l, key, start)
  {
    var r := s.checks[n].r;
    var ls := ApplicableLimits(limits, r);
    assert l in ls;
    var i :| 0 <= i < |ls| && ls[i] == l;
    assert CheckLogged(limits, s.log, n, s.checks[n]);
    assert Logged(s.log, n, ls[i], r, false);
    hide ApplicableLimits, CounterKey, HitsOf, Invariant, Passed;
    var k :| 0 <= k < |s.log| && s.log[k].n == n && s.log[k].l == l && s.log[k].r == r && s.log[k].count <= l.Ceiling();
    PassedHas(s.log, l, key, start, k);
  }

  /**
   * However checks overlap, a refusing limit lets through at most its ceiling in an interval as long as
   * its window, for each counter, if no arrival from past the interval was counted there ahead of one
   * from inside it. Counting first and deciding by the count is what does it.
   */
  lemma WindowHoldsUnderOverlap(limits: seq<Limit>, l: Limit, sample: Request, steps: seq<Step>, start: int)
    requires KeysApart(limits) && l in limits && l.action.Refuse?
    requires InTurn(Run(limits, steps).log, CounterKey(l, sample), start, start + l.unit.Ms())
    ensures |AllowedOn(limits, Run(limits, steps), l, CounterKey(l, sample), start)| <= l.Ceiling()
  {
    RunInvariant(limits, steps);
    var s, key := Run(limits, steps), CounterKey(l, sample);
    hide Run, KeysApart, InTurn, CounterKey, AllowedOn, TrueAt, CheckLogged, Passed, HitsOf, Pruned;
    PassedBounded(limits, s.log, l, sample, start);
    hide Invariant;
    forall n | n in AllowedOn(limits, s, l, key, start) ensures n in Passed(s.log, l, key, start) {
      AllowedHavePassed(limits, s, l, key, start, n);
    }
    Fewer(AllowedOn(limits, s, l, key, start), Passed(s.log, l, key, start));
  }

  lemma Fewer(a: set<nat>, b: set<nat>)
    requires forall n :: n in a ==> n in b
    ensures |a| <= |b|
  {
    assert b == a + (b - a);
  }

  // Two calls a second, and four checks: one of the four, begun first of its second, counts last.

  function TwoASecond(): Limit { Limit("two", Global, None, None, None, 2, Second, None, Sliding, Refuse, 0) }

  function OvertakenSteps(): seq<Step> {
    [Begin(0, CallAt(1)), Count(0), Begin(1, CallAt(1)), Count(1), Begin(2, CallAt(1000)), Begin(3, CallAt(1002)), Count(3), Count(2)]
  }

  lemma OnlyTwoASecond(at: int)
    ensures ApplicableLimits([TwoASecond()], CallAt(at)) == [TwoASecond()] && CounterKey(TwoASecond(), CallAt(at)) == "two:global"
  {
    var l, r := TwoASecond(), CallAt(at);
    FilterAppend([], l, AppliesTo(r));
    assert [] + [l] == [l];
    assert StableSort([l], NotAfter) == [l] by { assert [l][..0] == []; }
    assert "two" + ":" + "global" == "two:global";
  }

  /** A check of the one limit counts, and that is all of it. */
  lemma CountsOnce(s: State, n: nat, at: int, times: seq<int>, kept: seq<int>)
    requires n in s.checks && s.checks[n] == Check(CallAt(at), 0, false)
    requires Get(s.hits, "two:global") == times && Kept(times, at - 1000) == kept
    ensures var t := Next([TwoASecond()], s, Count(n));
            Get(t.hits, "two:global") == kept + [at] && t.checks == s.checks[n := Check(CallAt(at), 1, |kept| + 1 > 2)]
  {
    OnlyTwoASecond(at);
    hide ApplicableLimits, CounterKey, Kept;
  }

  lemma Begins(s: State, n: nat, at: int)
    requires n !in s.checks
    ensures Next([TwoASecond()], s, Begin(n, CallAt(at))) == s.(checks := s.checks[n := Check(CallAt(at), 0, false)])
  {
  }

  lemma RunAppend(limits: seq<Limit>, steps: seq<Step>, step: Step)
    ensures Run(limits, steps + [step]) == Next(limits, Run(limits, steps), step)
  {
    assert (steps + [step])[..|steps|] == steps;
  }

  ghost predicate After(s: State, times: seq<int>, checks: map<nat, Check>) { Get(s.hits, "two:global") == times && s.checks == checks }

  function Begun(at: int): Check { Check(CallAt(at), 0, false) }

  function Fits(at: int): Check { Check(CallAt(at), 1, false) }

  lemma BeginAfter(steps: seq<Step>, n: nat, at: int, times: seq<int>, checks: map<nat, Check>)
    requires After(Run([TwoASecond()], steps), times, checks) && n !in checks
    ensures After(Run([TwoASecond()], steps + [Begin(n, CallAt(at))]), times, checks[n := Begun(at)])
  {
    hide Run, Next, Get, CallAt;
    RunAppend([TwoASecond()], steps, Begin(n, CallAt(at)));
    Begins(Run([TwoASecond()], steps), n, at);
  }

  lemma CountAfter(steps: seq<Step>, n: nat, at: int, times: seq<int>, kept: seq<int>, checks: map<nat, Check>)
    requires After(Run([TwoASecond()], steps), times, checks) && n in checks && checks[n] == Begun(at)
    requires Kept(times, at - 1000) == kept && |kept| <= 1
    ensures After(Run([TwoASecond()], steps + [Count(n)]), kept + [at], checks[n := Fits(at)])
  {
    hide Run, Next, Get, CallAt, Kept;
    RunAppend([TwoASecond()], steps, Count(n));
    CountsOnce(Run([TwoASecond()], steps), n, at, times, kept);
  }

  lemma KeptOnes()
    ensures Kept([], -999) == [] && Kept([1], -999) == [1] && Kept([1, 1], 2) == [] && Kept([1002], 0) == [1002]
  {
    var one := [1];
    assert one[..0] == [] && [1002][..0] == [] && [1, 1][..1] == one;
    assert Kept(one, 2) == [];
  }

  lemma StepTaken(i: nat)
    requires i < 8
    ensures |OvertakenSteps()| == 8 && OvertakenSteps()[..i + 1] == OvertakenSteps()[..i] + [OvertakenSteps()[i]]
  {
  }

  lemma FirstFour()
    ensures |OvertakenSteps()| == 8
    ensures After(Run([TwoASecond()], OvertakenSteps()[..4]), [1, 1], map[0 := Fits(1), 1 := Fits(1)])
  {
    NothingYet();
    TheSteps();
    KeptOnes();
    hide *;
    StepTaken(0);
    StepTaken(1);
    StepTaken(2);
    StepTaken(3);
    BeginAfter(OvertakenSteps()[..0], 0, 1, [], map[]);
    CountAfter(OvertakenSteps()[..1], 0, 1, [], [], map[0 := Begun(1)]);
    assert map[0 := Begun(1)][0 := Fits(1)] == map[0 := Fits(1)] && [] + [1] == [1];
    BeginAfter(OvertakenSteps()[..2], 1, 1, [1], map[0 := Fits(1)]);
    CountAfter(OvertakenSteps()[..3], 1, 1, [1], [1], map[0 := Fits(1)][1 := Begun(1)]);
    assert map[0 := Fits(1)][1 := Begun(1)][1 := Fits(1)] == map[0 := Fits(1), 1 := Fits(1)] && [1] + [1] == [1, 1];
  }

  lemma NothingYet()
    ensures OvertakenSteps()[..0] == [] && After(Run([TwoASecond()], []), [], map[])
  {
  }

  lemma TheSteps()
    ensures |OvertakenSteps()| == 8
    ensures OvertakenSteps()[0] == Begin(0, CallAt(1)) && OvertakenSteps()[1] == Count(0)
    ensures OvertakenSteps()[2] == Begin(1, CallAt(1)) && OvertakenSteps()[3] == Count(1)
    ensures OvertakenSteps()[4] == Begin(2, CallAt(1000)) && OvertakenSteps()[5] == Begin(3, CallAt(1002))
    ensures OvertakenSteps()[6] == Count(3) && OvertakenSteps()[7] == Count(2) && OvertakenSteps()[..8] == OvertakenSteps()
  {
    hide CallAt;
  }

  lemma OvertakenState()
    ensures After(Run([TwoASecond()], OvertakenSteps()), [1002, 1000], map[0 := Fits(1), 1 := Fits(1), 2 := Fits(1000), 3 := Fits(1002)])
  {
    TheSteps();
    KeptOnes();
    hide *;
    FirstFour();
    StepTaken(4);
    StepTaken(5);
    StepTaken(6);
    StepTaken(7);
    var two := map[0 := Fits(1), 1 := Fits(1)];
    BeginAfter(OvertakenSteps()[..4], 2, 1000, [1, 1], two);
    BeginAfter(OvertakenSteps()[..5], 3, 1002, [1, 1], two[2 := Begun(1000)]);
    CountAfter(OvertakenSteps()[..6], 3, 1002, [1, 1], [], two[2 := Begun(1000)][3 := Begun(1002)]);
    var three := two[2 := Begun(1000)][3 := Begun(1002)][3 := Fits(1002)];
    assert [] + [1002] == [1002] && three[2] == Begun(1000);
    CountAfter(OvertakenSteps()[..7], 2, 1000, [1002], [1002], three);
    assert three[2 := Fits(1000)] == map[0 := Fits(1), 1 := Fits(1), 2 := Fits(1000), 3 := Fits(1002)];
    assert [1002] + [1000] == [1002, 1000];
  }

  /** Overtaken: three calls of one second are allowed where two are, since the call after it had pruned the first two. */
  lemma OvertakenPassesCeiling()
    ensures var s := Run([TwoASecond()], OvertakenSteps());
            AllowedOn([TwoASecond()], s, TwoASecond(), "two:global", 0) == {0, 1, 2} && TwoASecond().Ceiling() == 2
  {
    OvertakenState();
    var s := Run([TwoASecond()], OvertakenSteps());
    hide Run;
    OnlyTwoASecond(1);
    OnlyTwoASecond(1000);
    OnlyTwoASecond(1002);
    hide ApplicableLimits, CounterKey;
    assert s.checks == map[0 := Fits(1), 1 := Fits(1), 2 := Fits(1000), 3 := Fits(1002)];
    assert forall n :: n in s.checks ==> n in {0, 1, 2, 3};
  }
}
