/** Consuming a quota: the usage store, one call, and any interleaving of concurrent calls. */
module Quotas {
  import opened Text
  import opened QuotaPeriods

  datatype Overage = Hard | Soft | Billable

  datatype Quota = Quota(
    quotaId: string,
    period: Period,
    resetDayOfMonth: int,
    limit: nat,
    overage: Overage,
    alertThresholds: seq<real>)

  datatype Decision = Decision(allowed: bool, inOverage: bool, used: nat, crossedThresholds: seq<real>)

  // --- the store --------------------------------------------------------------

  function StoreKey(quotaId: string, periodKey: string): string { quotaId + ":" + periodKey }

  function Total(totals: map<string, nat>, key: string): nat { if key in totals then totals[key] else 0 }

  class InMemoryQuotaUsageStore {
    var totals: map<string, nat>

    constructor ()
      ensures totals == map[]
    {
      totals := map[];
    }

    method Consume(quotaId: string, periodKey: string, calls: nat) returns (total: nat)
      modifies this
      ensures total == Total(old(totals), StoreKey(quotaId, periodKey)) + calls
      ensures totals == old(totals)[StoreKey(quotaId, periodKey) := total]
    {
      var key := StoreKey(quotaId, periodKey);
      total := Total(totals, key) + calls;
      totals := totals[key := total];
    }

    method Read(quotaId: string, periodKey: string) returns (total: nat)
      ensures total == Total(totals, StoreKey(quotaId, periodKey))
    {
      total := Total(totals, StoreKey(quotaId, periodKey));
    }
  }

  lemma LaterColon(q: string, p: string, r: string, s: string)
    requires StoreKey(q, p) == StoreKey(r, s) && |q| < |r|
    ensures ':' in p
  {
    assert StoreKey(q, p)[|r|] == p[|r| - |q| - 1] && StoreKey(r, s)[|r|] == ':';
  }

  /** Period keys hold no colon, so distinct quotas and periods never share a total. */
  lemma StoreKeyInjective(q: string, p: string, r: string, s: string)
    requires NoColon(p) && NoColon(s)
    ensures StoreKey(q, p) == StoreKey(r, s) <==> q == r && p == s
  {
    var x, y := q + ":" + p, r + ":" + s;
    if x == y {
      if |q| < |r| { LaterColon(q, p, r, s); } else if |r| < |q| { LaterColon(r, s, q, p); }
      assert q == x[..|q|] && r == y[..|r|] && p == x[|q| + 1..] && s == y[|r| + 1..];
    }
  }

  // --- one call ---------------------------------------------------------------

  /** The thresholds a call takes the total across. */
  function Crossed(thresholds: seq<real>, limit: nat, before: nat, after: nat): (r: seq<real>)
    ensures forall t :: t in r <==> t in thresholds && before as real < limit as real * t <= after as real
  {
    if thresholds == [] then []
    else
      var rest := Crossed(thresholds[1..], limit, before, after);
      if before as real < limit as real * thresholds[0] <= after as real then [thresholds[0]] + rest else rest
  }

  function Decide(q: Quota, before: nat, after: nat): Decision {
    var inOverage := after > q.limit;
    Decision(!(inOverage && q.overage.Hard?), inOverage, after, Crossed(q.alertThresholds, q.limit, before, after))
  }

  /** A call on its own: read, count, then decide. */
  method ConsumeQuota(quota: Quota, store: InMemoryQuotaUsageStore, at: int, calls: nat) returns (d: Decision)
    modifies store
    ensures var key := StoreKey(quota.quotaId, PeriodFor(quota.period, quota.resetDayOfMonth, at).key);
            var before := Total(old(store.totals), key);
            && d == Decide(quota, before, before + calls)
            && store.totals == old(store.totals)[key := before + calls]
            && d.used == before + calls && (d.inOverage <==> before + calls > quota.limit)
            && (d.allowed <==> quota.overage != Hard || before + calls <= quota.limit)
  {
    hide PeriodFor, Decide;
    var window := PeriodFor(quota.period, quota.resetDayOfMonth, at);
    var before := store.Read(quota.quotaId, window.key);
    var after := store.Consume(quota.quotaId, window.key, calls);
    d := Decide(quota, before, after);
    DecidedBy(quota, before, after);
  }

  /** Refused only past the limit of a hard quota; past any limit a call says so, and by how much. */
  lemma DecidedBy(q: Quota, before: nat, after: nat)
    ensures var d := Decide(q, before, after);
            && d.used == after && (d.inOverage <==> after > q.limit) && (d.allowed <==> q.overage != Hard || after <= q.limit)
  {
  }

  // --- concurrent calls -------------------------------------------------------

  /** A call in flight: what it will count, and under which store key. */
  datatype Call = Call(quota: Quota, key: string, calls: nat)

  /** Where a call is: the two awaits in its body are the points at which others may run. */
  datatype Phase = Fresh | HasRead(before: nat) | Done

  /** A finished call, in the order the counts were taken. */
  datatype Entry = Entry(call: nat, before: nat, after: nat)

  datatype State = State(totals: map<string, nat>, phases: seq<Phase>, log: seq<Entry>)

  function Start(calls: seq<Call>): State { State(map[], seq(|calls|, _ => Fresh), []) }

  /** The next atomic step of call `i`: its read, then its count. */
  function Step(calls: seq<Call>, s: State, i: nat): (r: State)
    requires |s.phases| == |calls| && i < |calls|
    ensures |r.phases| == |calls|
  {
    var key := calls[i].key;
    match s.phases[i]
    case Fresh => s.(phases := s.phases[i := HasRead(Total(s.totals, key))])
    case HasRead(before) =>
      var after := Total(s.totals, key) + calls[i].calls;
      State(s.totals[key := after], s.phases[i := Done], s.log + [Entry(i, before, after)])
    case Done => s
  }

  /** Any schedule of steps is an interleaving of the calls, finished or not. */
  function Run(calls: seq<Call>, schedule: seq<nat>): (r: State)
    requires forall k :: 0 <= k < |schedule| ==> schedule[k] < |calls|
    ensures |r.phases| == |calls|
  {
    if schedule == [] then Start(calls)
    else Step(calls, Run(calls, schedule[..|schedule| - 1]), schedule[|schedule| - 1])
  }

  /** Calls counted under a key. */
  function Counted(calls: seq<Call>, log: seq<Entry>, key: string): nat
    requires forall k :: 0 <= k < |log| ==> log[k].call < |calls|
  {
    if log == [] then 0
    else
      var e := log[|log| - 1];
      Counted(calls, log[..|log| - 1], key) + if calls[e.call].key == key then calls[e.call].calls else 0
  }

  /** Calls admitted under a key: counted, and the decision was to allow. */
  function Admitted(calls: seq<Call>, log: seq<Entry>, key: string): nat
    requires forall k :: 0 <= k < |log| ==> log[k].call < |calls|
  {
    if log == [] then 0
    else
      var e := log[|log| - 1];
      Admitted(calls, log[..|log| - 1], key)
      + if calls[e.call].key == key && Decide(calls[e.call].quota, e.before, e.after).allowed
        then calls[e.call].calls else 0
  }

  /** How many calls under a key reported crossing a mark. */
  function Reports(calls: seq<Call>, log: seq<Entry>, key: string, mark: real): nat
    requires forall k :: 0 <= k < |log| ==> log[k].call < |calls|
  {
    if log == [] then 0
    else
      var e := log[|log| - 1];
      Reports(calls, log[..|log| - 1], key, mark)
      + if calls[e.call].key == key && e.before as real < mark <= e.after as real then 1 else 0
  }

  /** What every step keeps. */
  ghost predicate Invariant(calls: seq<Call>, s: State, key: string) {
    && |s.phases| == |calls|
    && (forall k :: 0 <= k < |s.log| ==> s.log[k].call < |calls|)
    && Total(s.totals, key) == Counted(calls, s.log, key)
    && (forall i :: 0 <= i < |calls| && calls[i].key == key && s.phases[i].HasRead? ==>
          s.phases[i].before <= Total(s.totals, key))
  }

  lemma LogGrows(calls: seq<Call>, log: seq<Entry>, e: Entry, key: string, mark: real)
    requires forall k :: 0 <= k < |log| ==> log[k].call < |calls|
    requires e.call < |calls|
    ensures var c := calls[e.call]; var grown := log + [e];
            && Counted(calls, grown, key) == Counted(calls, log, key) + (if c.key == key then c.calls else 0)
            && Admitted(calls, grown, key) == Admitted(calls, log, key)
               + (if c.key == key && Decide(c.quota, e.before, e.after).allowed then c.calls else 0)
            && Reports(calls, grown, key, mark) == Reports(calls, log, key, mark)
               + (if c.key == key && e.before as real < mark <= e.after as real then 1 else 0)
  {
    assert (log + [e])[..|log + [e]| - 1] == log;
  }

  lemma StepKeepsInvariant(calls: seq<Call>, s: State, i: nat, key: string)
    requires i < |calls| && Invariant(calls, s, key)
    ensures Invariant(calls, Step(calls, s, i), key)
    ensures Total(Step(calls, s, i).totals, key) >= Total(s.totals, key)
  {
    hide Decide;
    if s.phases[i].HasRead? {
      LogGrows(calls, s.log, Entry(i, s.phases[i].before, Total(s.totals, calls[i].key) + calls[i].calls), key, 0.0);
    }
  }

  lemma {:induction false} RunKeepsInvariant(calls: seq<Call>, schedule: seq<nat>, key: string)
    requires forall k :: 0 <= k < |schedule| ==> schedule[k] < |calls|
    ensures Invariant(calls, Run(calls, schedule), key)
  {
    if schedule != [] {
      RunKeepsInvariant(calls, schedule[..|schedule| - 1], key);
      StepKeepsInvariant(calls, Run(calls, schedule[..|schedule| - 1]), schedule[|schedule| - 1], key);
    }
  }

  function Min(x: nat, y: nat): nat { if x <= y then x else y }

  /**
   * Under any interleaving a hard quota admits at most its limit, and when every call counts one
   * it admits exactly the limit's worth of what arrived.
   */
  lemma {:induction false} HardQuotaHolds(calls: seq<Call>, schedule: seq<nat>, q: Quota, key: string)
    requires forall k :: 0 <= k < |schedule| ==> schedule[k] < |calls|
    requires q.overage.Hard? && forall i :: 0 <= i < |calls| && calls[i].key == key ==> calls[i].quota == q
    ensures Invariant(calls, Run(calls, schedule), key)
    ensures var s := Run(calls, schedule);
            && Admitted(calls, s.log, key) <= Min(q.limit, Total(s.totals, key))
            && ((forall i :: 0 <= i < |calls| && calls[i].key == key ==> calls[i].calls == 1) ==>
                  Admitted(calls, s.log, key) == Min(q.limit, Total(s.totals, key)))
  {
    hide Crossed;
    RunKeepsInvariant(calls, schedule, key);
    if schedule != [] {
      var before, i := schedule[..|schedule| - 1], schedule[|schedule| - 1];
      HardQuotaHolds(calls, before, q, key);
      var s := Run(calls, before);
      if s.phases[i].HasRead? {
        LogGrows(calls, s.log, Entry(i, s.phases[i].before, Total(s.totals, calls[i].key) + calls[i].calls), key, 0.0);
      }
    }
  }

  /** Under any interleaving a quota that is not hard admits everything it counts. */
  lemma {:induction false} SoftQuotaAdmitsAll(calls: seq<Call>, schedule: seq<nat>, key: string)
    requires forall k :: 0 <= k < |schedule| ==> schedule[k] < |calls|
    requires forall i :: 0 <= i < |calls| && calls[i].key == key ==> calls[i].quota.overage == Soft || calls[i].quota.overage == Billable
    ensures Invariant(calls, Run(calls, schedule), key)
    ensures var s := Run(calls, schedule); Admitted(calls, s.log, key) == Total(s.totals, key)
  {
    hide Crossed;
    RunKeepsInvariant(calls, schedule, key);
    if schedule != [] {
      var before, i := schedule[..|schedule| - 1], schedule[|schedule| - 1];
      SoftQuotaAdmitsAll(calls, before, key);
      var s := Run(calls, before);
      if s.phases[i].HasRead? {
        LogGrows(calls, s.log, Entry(i, s.phases[i].before, Total(s.totals, calls[i].key) + calls[i].calls), key, 0.0);
      }
    }
  }

  /** Each count left the total its own key had by then. */
  ghost predicate CountsInTurn(calls: seq<Call>, log: seq<Entry>) {
    forall k :: 0 <= k < |log| ==> TurnOf(calls, log, k)
  }

  ghost predicate TurnOf(calls: seq<Call>, log: seq<Entry>, k: nat)
    requires k < |log|
  {
    (forall j :: 0 <= j < |log| ==> log[j].call < |calls|)
    && log[k].after == Counted(calls, log[..k + 1], calls[log[k].call].key)
  }

  lemma TurnAppend(calls: seq<Call>, s: State, e: Entry)
    requires CountsInTurn(calls, s.log) && e.call < |calls| && Invariant(calls, s, calls[e.call].key)
    requires e.after == Total(s.totals, calls[e.call].key) + calls[e.call].calls
    ensures CountsInTurn(calls, s.log + [e])
  {
    var grown, key := s.log + [e], calls[e.call].key;
    hide Total;
    LogGrows(calls, s.log, e, key, 0.0);
    hide Counted;
    assert grown[..|grown|] == grown;
    forall k | 0 <= k < |grown| ensures TurnOf(calls, grown, k) {
      if k < |s.log| { assert TurnOf(calls, s.log, k) && grown[..k + 1] == s.log[..k + 1]; }
    }
  }

  lemma {:induction false} RunCountsInTurn(calls: seq<Call>, schedule: seq<nat>)
    requires forall k :: 0 <= k < |schedule| ==> schedule[k] < |calls|
    ensures CountsInTurn(calls, Run(calls, schedule).log)
  {
    if schedule != [] {
      var before, i := schedule[..|schedule| - 1], schedule[|schedule| - 1];
      RunCountsInTurn(calls, before);
      var s := Run(calls, before);
      RunKeepsInvariant(calls, before, calls[i].key);
      hide Invariant, CountsInTurn, Total;
      if s.phases[i].HasRead? { TurnAppend(calls, s, Entry(i, s.phases[i].before, Total(s.totals, calls[i].key) + calls[i].calls)); }
    }
  }

  /**
   * Under any interleaving the verdict on a call rests on the total its count left: it is told that
   * total, is in overage exactly past the limit, and is refused exactly when it is so on a hard quota.
   */
  lemma VerdictByTotal(calls: seq<Call>, schedule: seq<nat>, k: nat)
    requires forall j :: 0 <= j < |schedule| ==> schedule[j] < |calls|
    requires k < |Run(calls, schedule).log|
    ensures var log := Run(calls, schedule).log;
            && (forall j :: 0 <= j < |log| ==> log[j].call < |calls|)
            && var c := calls[log[k].call]; var total := Counted(calls, log[..k + 1], c.key); var d := Decide(c.quota, log[k].before, log[k].after);
               && d.used == total && (d.inOverage <==> total > c.quota.limit)
               && (!d.allowed <==> total > c.quota.limit && c.quota.overage == Hard)
  {
    RunCountsInTurn(calls, schedule);
    hide Run, Counted, Crossed;
    assert TurnOf(calls, Run(calls, schedule).log, k);
  }

  /** Entry `k` counted on the key once the total had reached the mark, and had read a total below it. */
  predicate LateRead(calls: seq<Call>, log: seq<Entry>, key: string, mark: real, k: nat)
    requires forall i :: 0 <= i < |log| ==> log[i].call < |calls|
  {
    k < |log| && calls[log[k].call].key == key && log[k].before as real < mark <= Counted(calls, log[..k], key) as real
  }

  function LateReads(calls: seq<Call>, log: seq<Entry>, key: string, mark: real): nat
    requires forall k :: 0 <= k < |log| ==> log[k].call < |calls|
  {
    if log == [] then 0
    else LateReads(calls, log[..|log| - 1], key, mark) + if LateRead(calls, log, key, mark, |log| - 1) then 1 else 0
  }

  lemma LateReadsGrow(calls: seq<Call>, log: seq<Entry>, e: Entry, key: string, mark: real)
    requires forall k :: 0 <= k < |log| ==> log[k].call < |calls|
    requires e.call < |calls|
    ensures LateReads(calls, log + [e], key, mark) == LateReads(calls, log, key, mark)
              + if calls[e.call].key == key && e.before as real < mark <= Counted(calls, log, key) as real then 1 else 0
  {
    assert (log + [e])[..|log|] == log;
  }

  lemma {:induction false} LateReadsPositive(calls: seq<Call>, log: seq<Entry>, key: string, mark: real)
    requires forall k :: 0 <= k < |log| ==> log[k].call < |calls|
    ensures LateReads(calls, log, key, mark) > 0 <==> exists k :: LateRead(calls, log, key, mark, k)
  {
    hide Counted;
    if log != [] {
      var n := |log| - 1;
      var front := log[..n];
      LateReadsPositive(calls, front, key, mark);
      assert forall k: nat :: k < n ==> front[..k] == log[..k];
      assert forall k: nat :: k < n ==> (LateRead(calls, front, key, mark, k) <==> LateRead(calls, log, key, mark, k));
    }
  }

  /** One count more: it reports the mark if it reaches it first, or if it had read too early. */
  lemma ReportsFollow(mark: real, before: nat, total: nat, calls: nat)
    requires before <= total
    ensures (if before as real < mark <= (total + calls) as real then 1 else 0) + (if 0.0 < mark <= total as real then 1 else 0)
            == (if 0.0 < mark <= (total + calls) as real then 1 else 0) + (if before as real < mark <= total as real then 1 else 0)
  {
  }

  /**
   * Under any interleaving a mark is reported once when it is positive and reached, and once more for
   * every call that had read a total below it and counted only after it was reached.
   */
  lemma {:induction false} ReportsExactly(calls: seq<Call>, schedule: seq<nat>, key: string, mark: real)
    requires forall k :: 0 <= k < |schedule| ==> schedule[k] < |calls|
    ensures Invariant(calls, Run(calls, schedule), key)
    ensures var s := Run(calls, schedule);
            Reports(calls, s.log, key, mark)
            == (if 0.0 < mark <= Total(s.totals, key) as real then 1 else 0) + LateReads(calls, s.log, key, mark)
  {
    hide Run, Counted, Admitted, Reports, LateReads, Decide, Total;
    RunKeepsInvariant(calls, schedule, key);
    if schedule == [] {
      NothingReported(calls, key, mark);
    } else {
      var before, i := schedule[..|schedule| - 1], schedule[|schedule| - 1];
      ReportsExactly(calls, before, key, mark);
      assert before + [i] == schedule;
      RunAppend(calls, before, i);
      ReportsStep(calls, Run(calls, before), i, key, mark);
    }
  }

  lemma ReportsStep(calls: seq<Call>, s: State, i: nat, key: string, mark: real)
    requires i < |calls| && Invariant(calls, s, key)
    requires Reports(calls, s.log, key, mark)
             == (if 0.0 < mark <= Total(s.totals, key) as real then 1 else 0) + LateReads(calls, s.log, key, mark)
    ensures var r := Step(calls, s, i);
            && (forall k :: 0 <= k < |r.log| ==> r.log[k].call < |calls|)
            && Reports(calls, r.log, key, mark)
               == (if 0.0 < mark <= Total(r.totals, key) as real then 1 else 0) + LateReads(calls, r.log, key, mark)
  {
    hide Counted, Admitted, Reports, LateReads, Decide;
    if s.phases[i].HasRead? {
      var total := Total(s.totals, calls[i].key);
      var e := Entry(i, s.phases[i].before, total + calls[i].calls);
      LogGrows(calls, s.log, e, key, mark);
      LateReadsGrow(calls, s.log, e, key, mark);
      if calls[i].key == key { ReportsFollow(mark, e.before, total, calls[i].calls); }
    }
  }

  /** So a mark is reported more than once exactly when some call read below it and counted after it was reached. */
  lemma ReportedTwiceExactly(calls: seq<Call>, schedule: seq<nat>, key: string, mark: real)
    requires forall k :: 0 <= k < |schedule| ==> schedule[k] < |calls|
    ensures Invariant(calls, Run(calls, schedule), key)
    ensures var s := Run(calls, schedule);
            Reports(calls, s.log, key, mark) >= 2 <==> exists k :: LateRead(calls, s.log, key, mark, k)
  {
    hide Run, Counted, Reports, Total;
    ReportsExactly(calls, schedule, key, mark);
    var s := Run(calls, schedule);
    LateReadsPositive(calls, s.log, key, mark);
    if k :| LateRead(calls, s.log, key, mark, k) { LateReached(calls, s, key, mark, k); }
  }

  /** Totals only grow, so a mark some call found reached is still reached. */
  lemma LateReached(calls: seq<Call>, s: State, key: string, mark: real, k: nat)
    requires Invariant(calls, s, key) && LateRead(calls, s.log, key, mark, k)
    ensures 0.0 < mark <= Total(s.totals, key) as real
  {
    CountedGrows(calls, s.log, key, k);
  }

  lemma {:induction false} CountedGrows(calls: seq<Call>, log: seq<Entry>, key: string, k: nat)
    requires k <= |log| && forall i :: 0 <= i < |log| ==> log[i].call < |calls|
    ensures Counted(calls, log[..k], key) <= Counted(calls, log, key)
  {
    if k == |log| {
      assert log[..k] == log;
    } else {
      var front := log[..|log| - 1];
      CountedGrows(calls, front, key, k);
      assert front[..k] == log[..k];
    }
  }

  /**
   * Under any interleaving a mark has been reported at least once exactly when it is positive and
   * the total has reached it. A threshold of zero is therefore never reported.
   */
  lemma MarkReported(calls: seq<Call>, schedule: seq<nat>, key: string, mark: real)
    requires forall k :: 0 <= k < |schedule| ==> schedule[k] < |calls|
    ensures Invariant(calls, Run(calls, schedule), key)
    ensures var s := Run(calls, schedule);
            Reports(calls, s.log, key, mark) >= 1 <==> 0.0 < mark <= Total(s.totals, key) as real
  {
    hide Run, Counted, Reports, Total;
    ReportsExactly(calls, schedule, key, mark);
    var s := Run(calls, schedule);
    LateReadsPositive(calls, s.log, key, mark);
    if k :| LateRead(calls, s.log, key, mark, k) { LateReached(calls, s, key, mark, k); }
  }

  // --- the thresholds themselves ----------------------------------------------

  /** How many decisions on a key listed a threshold among those they crossed. */
  function Alerts(calls: seq<Call>, log: seq<Entry>, key: string, threshold: real): nat
    requires forall k :: 0 <= k < |log| ==> log[k].call < |calls|
  {
    if log == [] then 0
    else
      var e := log[|log| - 1];
      Alerts(calls, log[..|log| - 1], key, threshold)
      + if calls[e.call].key == key && threshold in Decide(calls[e.call].quota, e.before, e.after).crossedThresholds then 1 else 0
  }

  lemma CrossedMeans(q: Quota, threshold: real, before: nat, after: nat)
    requires threshold in q.alertThresholds
    ensures threshold in Decide(q, before, after).crossedThresholds
            <==> before as real < q.limit as real * threshold <= after as real
  {
  }

  lemma {:induction false} AlertsAreReports(calls: seq<Call>, log: seq<Entry>, q: Quota, key: string, threshold: real)
    requires forall k :: 0 <= k < |log| ==> log[k].call < |calls|
    requires threshold in q.alertThresholds && forall i :: 0 <= i < |calls| && calls[i].key == key ==> calls[i].quota == q
    ensures Alerts(calls, log, key, threshold) == Reports(calls, log, key, q.limit as real * threshold)
  {
    hide Decide;
    if log != [] {
      var front, e := log[..|log| - 1], log[|log| - 1];
      AlertsAreReports(calls, front, q, key, threshold);
      if calls[e.call].key == key {
        CrossedMeans(q, threshold, e.before, e.after);
      }
    }
  }

  /**
   * Of the decisions a quota's callers get, at least one lists a threshold exactly when its mark is
   * positive and reached, and more than one exactly when a call read below it and counted after it.
   */
  lemma ThresholdAlerted(calls: seq<Call>, schedule: seq<nat>, q: Quota, key: string, threshold: real)
    requires forall k :: 0 <= k < |schedule| ==> schedule[k] < |calls|
    requires threshold in q.alertThresholds && forall i :: 0 <= i < |calls| && calls[i].key == key ==> calls[i].quota == q
    ensures Invariant(calls, Run(calls, schedule), key)
    ensures var s := Run(calls, schedule); var mark := q.limit as real * threshold;
            && (Alerts(calls, s.log, key, threshold) >= 1 <==> 0.0 < mark <= Total(s.totals, key) as real)
            && (Alerts(calls, s.log, key, threshold) >= 2 <==> exists k :: LateRead(calls, s.log, key, mark, k))
  {
    var mark := q.limit as real * threshold;
    hide Run, Counted, Reports, Alerts, LateRead, Total;
    MarkReported(calls, schedule, key, mark);
    ReportedTwiceExactly(calls, schedule, key, mark);
    AlertsAreReports(calls, Run(calls, schedule).log, q, key, threshold);
  }

  /** Each call's read and count are adjacent: no two calls overlap. */
  ghost predicate NoOverlap(schedule: seq<nat>) {
    && |schedule| % 2 == 0
    && (forall k :: 0 <= k < |schedule| && k % 2 == 0 ==> schedule[k] == schedule[k + 1])
    && (forall j, k :: 0 <= j < k < |schedule| && j % 2 == 0 && k % 2 == 0 ==> schedule[j] != schedule[k])
  }

  /** A call that has not been scheduled is untouched. */
  lemma {:induction false} UnscheduledIsFresh(calls: seq<Call>, schedule: seq<nat>, i: nat)
    requires forall k :: 0 <= k < |schedule| ==> schedule[k] < |calls|
    requires i < |calls| && i !in schedule
    ensures Run(calls, schedule).phases[i] == Fresh
  {
    if schedule != [] { UnscheduledIsFresh(calls, schedule[..|schedule| - 1], i); }
  }

  lemma RunAppend(calls: seq<Call>, schedule: seq<nat>, i: nat)
    requires i < |calls| && forall k :: 0 <= k < |schedule| ==> schedule[k] < |calls|
    ensures Run(calls, schedule + [i]) == Step(calls, Run(calls, schedule), i)
  {
    assert (schedule + [i])[..|schedule|] == schedule;
  }

  lemma ReadThenCount(calls: seq<Call>, s: State, i: nat)
    requires |s.phases| == |calls| && i < |calls| && s.phases[i].Fresh?
    ensures var r := Step(calls, Step(calls, s, i), i);
            var total := Total(s.totals, calls[i].key);
            && r.totals == s.totals[calls[i].key := total + calls[i].calls]
            && r.log == s.log + [Entry(i, total, total + calls[i].calls)]
  {
    hide Total;
    assert Step(calls, s, i).phases[i] == HasRead(Total(s.totals, calls[i].key));
  }

  /** A call that runs alone reads exactly the total it then adds to. */
  lemma RunAlone(calls: seq<Call>, schedule: seq<nat>, i: nat)
    requires i < |calls| && forall k :: 0 <= k < |schedule| ==> schedule[k] < |calls|
    requires Run(calls, schedule).phases[i].Fresh?
    ensures var s, r := Run(calls, schedule), Run(calls, schedule + [i, i]);
            var total := Total(s.totals, calls[i].key);
            && r.totals == s.totals[calls[i].key := total + calls[i].calls]
            && r.log == s.log + [Entry(i, total, total + calls[i].calls)]
  {
    hide Run, Total;
    var s := Run(calls, schedule);
    assert schedule + [i] + [i] == schedule + [i, i];
    RunAppend(calls, schedule, i);
    RunAppend(calls, schedule + [i], i);
    ReadThenCount(calls, s, i);
    hide Step;
  }

  /** A schedule without overlap ends in a call that has not run before, both its steps together. */
  lemma LastPair(schedule: seq<nat>)
    requires NoOverlap(schedule) && schedule != []
    ensures |schedule| >= 2 && NoOverlap(schedule[..|schedule| - 2])
    ensures var i, earlier := schedule[|schedule| - 2], schedule[..|schedule| - 2];
            i !in earlier && schedule == earlier + [i, i]
  {
    var n := |schedule| - 2;
    forall k | 0 <= k < n ensures schedule[k] != schedule[n] {
      assert schedule[k - k % 2] == schedule[k];
    }
    assert schedule == schedule[..n] + [schedule[n], schedule[n + 1]];
  }

  lemma ReportStep(calls: seq<Call>, s: State, r: State, i: nat, key: string, mark: real)
    requires i < |calls| && forall k :: 0 <= k < |s.log| ==> s.log[k].call < |calls|
    requires var total := Total(s.totals, calls[i].key);
             r.totals == s.totals[calls[i].key := total + calls[i].calls]
             && r.log == s.log + [Entry(i, total, total + calls[i].calls)]
    requires Reports(calls, s.log, key, mark) == if 0.0 < mark <= Total(s.totals, key) as real then 1 else 0
    ensures forall k :: 0 <= k < |r.log| ==> r.log[k].call < |calls|
    ensures Reports(calls, r.log, key, mark) == if 0.0 < mark <= Total(r.totals, key) as real then 1 else 0
  {
    hide Decide, Reports, Admitted, Counted;
    var total := Total(s.totals, calls[i].key);
    LogGrows(calls, s.log, Entry(i, total, total + calls[i].calls), key, mark);
  }

  /** Without overlap every mark passed is reported exactly once. */
  lemma {:induction false} MarkReportedOnce(calls: seq<Call>, schedule: seq<nat>, key: string, mark: real)
    requires forall k :: 0 <= k < |schedule| ==> schedule[k] < |calls|
    requires NoOverlap(schedule)
    ensures Invariant(calls, Run(calls, schedule), key)
    ensures var s := Run(calls, schedule);
            Reports(calls, s.log, key, mark) == if 0.0 < mark <= Total(s.totals, key) as real then 1 else 0
  {
    hide Run, Counted, Admitted, Reports, Decide, NoOverlap, Total;
    RunKeepsInvariant(calls, schedule, key);
    if schedule == [] {
      NothingReported(calls, key, mark);
    } else {
      LastPair(schedule);
      var earlier, i := schedule[..|schedule| - 2], schedule[|schedule| - 2];
      MarkReportedOnce(calls, earlier, key, mark);
      UnscheduledIsFresh(calls, earlier, i);
      RunAlone(calls, earlier, i);
      ReportStep(calls, Run(calls, earlier), Run(calls, schedule), i, key, mark);
    }
  }

  lemma NothingReported(calls: seq<Call>, key: string, mark: real)
    ensures Run(calls, []).log == [] && Reports(calls, [], key, mark) == 0 && LateReads(calls, [], key, mark) == 0 && Total(Run(calls, []).totals, key) == 0
  {
  }

  function TwoCalls(q: Quota): seq<Call> { [Call(q, "k", 1), Call(q, "k", 1)] }

  lemma BothReadFirst(q: Quota)
    ensures Run(TwoCalls(q), [0, 1]) == State(map[], [HasRead(0), HasRead(0)], [])
  {
    var calls := TwoCalls(q);
    assert Run(calls, []).phases == [Fresh, Fresh];
    hide Run;
    RunAppend(calls, [], 0);
    RunAppend(calls, [0], 1);
    assert [] + [0] == [0] && [0] + [1] == [0, 1];
    assert Run(calls, [0]) == State(map[], [HasRead(0), Fresh], []);
  }

  lemma ThenBothCount(q: Quota)
    ensures Run(TwoCalls(q), [0, 1, 0, 1]).log == [] + [Entry(0, 0, 1)] + [Entry(1, 0, 2)]
  {
    hide Run;
    var calls := TwoCalls(q);
    BothReadFirst(q);
    RunAppend(calls, [0, 1], 0);
    RunAppend(calls, [0, 1, 0], 1);
    assert [0, 1] + [0] == [0, 1, 0] && [0, 1, 0] + [1] == [0, 1, 0, 1];
    assert Run(calls, [0, 1, 0]) == State(map["k" := 1], [Done, HasRead(0)], [Entry(0, 0, 1)]);
  }

  lemma OneReport(calls: seq<Call>, log: seq<Entry>, e: Entry, key: string)
    requires forall k :: 0 <= k < |log| ==> log[k].call < |calls|
    requires e.call < |calls| && calls[e.call].key == key && e.before == 0 && e.after >= 1
    ensures Reports(calls, log + [e], key, 1.0) == Reports(calls, log, key, 1.0) + 1
  {
    hide Decide, Admitted, Counted, Reports;
    LogGrows(calls, log, e, key, 1.0);
  }

  /** With overlap a mark can be reported twice: two calls read before either counts. */
  lemma OverlapReportsTwice(q: Quota)
    ensures Invariant(TwoCalls(q), Run(TwoCalls(q), [0, 1, 0, 1]), "k")
    ensures Reports(TwoCalls(q), Run(TwoCalls(q), [0, 1, 0, 1]).log, "k", 1.0) == 2
  {
    assert Reports(TwoCalls(q), [], "k", 1.0) == 0;
    hide Run, Reports, Counted;
    RunKeepsInvariant(TwoCalls(q), [0, 1, 0, 1], "k");
    ThenBothCount(q);
    OneReport(TwoCalls(q), [], Entry(0, 0, 1), "k");
    OneReport(TwoCalls(q), [] + [Entry(0, 0, 1)], Entry(1, 0, 2), "k");
  }

  function WarnAtNothing(): Quota { Quota("q", Daily, 1, 10, Soft, [0.0]) }

  /** A threshold of zero is in the list, calls are counted, and no decision ever lists it. */
  lemma ZeroNeverAlerted()
    ensures var calls := [Call(WarnAtNothing(), "k", 1)];
            && Invariant(calls, Run(calls, [0, 0]), "k")
            && Total(Run(calls, [0, 0]).totals, "k") == 1
            && Alerts(calls, Run(calls, [0, 0]).log, "k", 0.0) == 0
  {
    var calls := [Call(WarnAtNothing(), "k", 1)];
    assert Run(calls, []).phases == [Fresh] && Run(calls, []).totals == map[];
    hide Run, Alerts, LateRead;
    RunAlone(calls, [], 0);
    assert [] + [0, 0] == [0, 0];
    ThresholdAlerted(calls, [0, 0], WarnAtNothing(), "k", 0.0);
  }
}
