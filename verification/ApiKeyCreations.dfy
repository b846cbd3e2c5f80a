/** Creations of API keys that overlap: looking up the name, counting the active keys and storing are steps apart. */
module ApiKeyCreations {
  import opened Text
  import opened JsMap
  import opened ApiKeys

  /** A creation in flight: its name found free, or also counted within the ceiling. */
  datatype Task =
    | Named(k: NewKey, expiresAt: Option<int>)
    | Counted(k: NewKey, expiresAt: Option<int>)

  datatype State = State(store: Store, tasks: map<nat, Task>)

  datatype Step =
    | Look(n: nat, k: NewKey, now: int)
    | Count(n: nat)
    | Finish(n: nat, keyHash: string)
    | Whole(op: Op)

  /** Whether a creation gets past its arguments and the name. */
  predicate NameFree(c: Config, s: Store, k: NewKey, now: int)
    requires s.records.Valid()
  {
    && c.validScopes(k.scopes) && c.validAllowlist(k.ipAllowlist) && ResolveExpiry(c.policy, k.lifetimeSeconds, now).Some?
    && First(s.records.keys, s.records.vals, ApiKeys.Named(k.organizationId, k.name)).None?
  }

  /** One step; a step that is not enabled, or a creation that is refused, changes no record. Other operations are single steps. */
  function Next(c: Config, s: State, step: Step): (t: State)
    requires s.store.records.Valid()
    ensures t.store.records.Valid()
  {
    match step
    case Look(n, k, now) =>
      if n in s.tasks || !NameFree(c, s.store, k, now) then s
      else s.(tasks := s.tasks[n := Named(k, ResolveExpiry(c.policy, k.lifetimeSeconds, now).value)])
    case Count(n) =>
      if !(n in s.tasks && s.tasks[n].Named?) then s
      else if CountActive(s.store, s.tasks[n].k.organizationId) >= c.policy.maxKeysPerOrganization then s.(tasks := s.tasks - {n})
      else s.(tasks := s.tasks[n := Counted(s.tasks[n].k, s.tasks[n].expiresAt)])
    case Finish(n, keyHash) =>
      if !(n in s.tasks && s.tasks[n].Counted?) then s
      else State(Created(s.store, Fresh(s.tasks[n].k, keyHash, s.tasks[n].expiresAt, None)), s.tasks - {n})
    case Whole(op) => if op.DoCreate? then s else s.(store := ApiKeys.Step(c, s.store, op))
  }

  function Run(c: Config, s: State, steps: seq<Step>): (t: State)
    requires s.store.records.Valid()
    ensures t.store.records.Valid()
  {
    if steps == [] then s else Next(c, Run(c, s, steps[..|steps| - 1]), steps[|steps| - 1])
  }

  lemma RunAppend(c: Config, s: State, steps: seq<Step>, step: Step)
    requires s.store.records.Valid()
    ensures Run(c, s, steps + [step]) == Next(c, Run(c, s, steps), step)
  {
    assert (steps + [step])[..|steps|] == steps;
  }

  lemma RunNothing(c: Config, s: State)
    requires s.store.records.Valid()
    ensures Run(c, s, []) == s
  {
  }

  /** With nothing in between, the three steps are the creation as it runs alone. */
  lemma AloneIsCreate(c: Config, s: State, n: nat, k: NewKey, keyHash: string, now: int)
    requires s.store.records.Valid() && n !in s.tasks
    ensures Next(c, Next(c, Next(c, s, Look(n, k, now)), Count(n)), Finish(n, keyHash)) == s.(store := CreateStep(c, s.store, k, keyHash, now))
  {
    hide Created, CountActive, First, ResolveExpiry;
    assert s.tasks - {n} == s.tasks;
  }

  // --- how many records a test holds of ---------------------------------------

  function NamedIn(organizationId: string, name: string): (string, Record) -> bool {
    (_, r: Record) => r.organizationId == organizationId && r.name == name
  }

  /** The records of an organization under one name. */
  function Namesakes(s: Store, organizationId: string, name: string): nat
    requires s.records.Valid()
  {
    |KeysWhere(s.records, NamedIn(organizationId, name))|
  }

  lemma HeldAfterCreated(s: Store, r: Record, p: (string, Record) -> bool)
    requires Sound(s)
    ensures |KeysWhere(Created(s, r).records, p)|
            == |KeysWhere(s.records, p)| + if p(IdOf(s.counter + 1), r.(id := IdOf(s.counter + 1))) then 1 else 0
  {
    NextIdIsNew(s);
    hide IdOf, Matching;
    var t, id := Created(s, r), IdOf(s.counter + 1);
    assert t.records.keys == s.records.keys + [id];
    MatchingAppend(s.records.keys, id, t.records.vals, p);
    MatchingAgrees(s.records.keys, s.records.vals, t.records.vals, p);
  }

  lemma {:induction false} MatchingFewer(keys: seq<string>, v: map<string, Record>, w: map<string, Record>, p: (string, Record) -> bool)
    requires forall k :: k in keys ==> k in v && k in w && (p(k, w[k]) ==> p(k, v[k]))
    ensures |Matching(keys, w, p)| <= |Matching(keys, v, p)|
  {
    if keys != [] { MatchingFewer(keys[..|keys| - 1], v, w, p); }
  }

  lemma HeldAfterUpdated(s: Store, id: string, r: Record, p: (string, Record) -> bool)
    requires s.records.Valid() && (id in s.records.vals && p(id, r) ==> p(id, s.records.vals[id]))
    ensures |KeysWhere(Updated(s, id, r).records, p)| <= |KeysWhere(s.records, p)|
  {
    hide Matching;
    if id in s.records.vals { MatchingFewer(s.records.keys, s.records.vals, Updated(s, id, r).records.vals, p); }
  }

  /** A test on what no revocation or use changes but for the revocation mark. */
  ghost predicate Lasting(p: (string, Record) -> bool) {
    forall k, r: Record, t: Record ::
      t.organizationId == r.organizationId && t.name == r.name && (t.revokedAt.None? ==> r.revokedAt.None?) && p(k, t) ==> p(k, r)
  }

  lemma HeldAfterOther(c: Config, s: Store, op: Op, p: (string, Record) -> bool)
    requires s.records.Valid() && Lasting(p) && (op.DoRevoke? || op.DoVerify?)
    ensures |KeysWhere(ApiKeys.Step(c, s, op).records, p)| <= |KeysWhere(s.records, p)|
  {
    hide Judge, KeysWhere, Updated;
    match op
    case DoRevoke(id, organizationId, reason, now) =>
      if s.records.Has(id) {
        HeldAfterUpdated(s, id, s.records.vals[id].(revokedAt := Some(now), revokedReason := Some(reason)), p);
      }
    case DoVerify(presented, now) =>
      if Judge(s, presented, now).Verified? && s.records.Has(Judge(s, presented, now).record.id) {
        var id := Judge(s, presented, now).record.id;
        var r := s.records.vals[id];
        HeldAfterUpdated(s, id, r.(lastUsedAt := Some(now), lastUsedIp := presented.ipAddress, usageCount := r.usageCount + 1), p);
      }
  }

  // --- what overlapping creations can add up to -------------------------------

  /** The creations of an organization that have counted and are about to store. */
  ghost function Cleared(s: State, organizationId: string): set<nat> {
    set n | n in s.tasks && s.tasks[n].Counted? && s.tasks[n].k.organizationId == organizationId
  }

  /** The creations of a name that have found it free. */
  ghost function Making(s: State, organizationId: string, name: string): set<nat> {
    set n | n in s.tasks && s.tasks[n].k.organizationId == organizationId && s.tasks[n].k.name == name
  }

  lemma NoTasks(s: State, organizationId: string, name: string)
    requires s.tasks == map[]
    ensures |Cleared(s, organizationId)| == 0 && |Making(s, organizationId, name)| == 0
  {
    assert Cleared(s, organizationId) == {} && Making(s, organizationId, name) == {};
  }

  ghost predicate NoRotation(step: Step) { step.Whole? ==> !step.op.DoRotate? }

  lemma NextKeepsSound(c: Config, s: State, step: Step)
    requires Sound(s.store)
    ensures Sound(Next(c, s, step).store)
  {
    hide ApiKeys.Step, Created, Sound, Later, Fresh, CountActive, First, ResolveExpiry;
    SoundIsValid(s.store);
    match step
    case Finish(n, keyHash) =>
      if n in s.tasks && s.tasks[n].Counted? { CreatedIsLater(s.store, Fresh(s.tasks[n].k, keyHash, s.tasks[n].expiresAt, None)); }
    case Whole(op) => StepIsLater(c, s.store, op);
    case _ =>
  }

  lemma ActiveIsLasting(organizationId: string)
    ensures Lasting(ActiveIn(organizationId))
  {
  }

  lemma NamedIsLasting(organizationId: string, name: string)
    ensures Lasting(NamedIn(organizationId, name))
  {
  }

  /** A creation counts on a ceiling that others may have used up since: what is bounded is keys and creations together. */
  lemma ClearedStep(c: Config, s: State, step: Step, organizationId: string, m: nat)
    requires Sound(s.store) && NoRotation(step)
    requires |Cleared(Next(c, s, step), organizationId)| <= m
    requires CountActive(s.store, organizationId) + |Cleared(s, organizationId)| <= c.policy.maxKeysPerOrganization - 1 + m
    ensures CountActive(Next(c, s, step).store, organizationId) + |Cleared(Next(c, s, step), organizationId)|
            <= c.policy.maxKeysPerOrganization - 1 + m
  {
    if step.Finish? {
      FinishCleared(c, s, step.n, step.keyHash, organizationId);
    } else if step.Whole? {
      OtherHolds(c, s, step.op, ActiveIn(organizationId));
      ActiveIsLasting(organizationId);
      hide Next, KeysWhere;
    } else {
      CheckCleared(c, s, step, organizationId);
      hide Next, CountActive, Cleared;
      if Cleared(Next(c, s, step), organizationId) <= Cleared(s, organizationId) {
        Fewer(Cleared(Next(c, s, step), organizationId), Cleared(s, organizationId));
      }
    }
  }

  lemma OtherHolds(c: Config, s: State, op: Op, p: (string, Record) -> bool)
    requires s.store.records.Valid() && !op.DoRotate?
    ensures Next(c, s, Whole(op)).tasks == s.tasks
    ensures Lasting(p) ==> |KeysWhere(Next(c, s, Whole(op)).store.records, p)| <= |KeysWhere(s.store.records, p)|
  {
    hide KeysWhere, Lasting, ApiKeys.Step;
    if !op.DoCreate? && Lasting(p) { HeldAfterOther(c, s.store, op, p); }
  }

  /** A look or a count adds none to those cleared, unless there is room. */
  lemma CheckCleared(c: Config, s: State, step: Step, organizationId: string)
    requires s.store.records.Valid() && (step.Look? || step.Count?)
    ensures var t := Next(c, s, step);
            t.store == s.store
            && (Cleared(t, organizationId) <= Cleared(s, organizationId) || CountActive(s.store, organizationId) < c.policy.maxKeysPerOrganization)
  {
    hide CountActive, NameFree, ResolveExpiry;
  }

  lemma Fewer(a: set<nat>, b: set<nat>)
    requires a <= b
    ensures |a| <= |b|
  {
    assert b == a + (b - a);
  }

  lemma FinishCleared(c: Config, s: State, n: nat, keyHash: string, organizationId: string)
    requires Sound(s.store)
    ensures var t := Next(c, s, Finish(n, keyHash));
            CountActive(t.store, organizationId) + |Cleared(t, organizationId)|
            == CountActive(s.store, organizationId) + |Cleared(s, organizationId)|
  {
    var t := Next(c, s, Finish(n, keyHash));
    if n in s.tasks && s.tasks[n].Counted? {
      ActiveAfterCreated(s.store, Fresh(s.tasks[n].k, keyHash, s.tasks[n].expiresAt, None), organizationId);
      hide CountActive, Created, Sound;
      assert Cleared(t, organizationId) == Cleared(s, organizationId) - {n};
    }
  }

  /** At most so many of the organization's creations have counted and not yet stored, at any point. */
  ghost predicate AtMostCleared(c: Config, s: State, steps: seq<Step>, organizationId: string, m: nat)
    requires s.store.records.Valid()
  {
    forall i :: 0 <= i <= |steps| ==> |Cleared(Run(c, s, steps[..i]), organizationId)| <= m
  }

  lemma ClearedBefore(c: Config, s: State, steps: seq<Step>, step: Step, organizationId: string, m: nat)
    requires s.store.records.Valid() && AtMostCleared(c, s, steps + [step], organizationId, m)
    ensures AtMostCleared(c, s, steps, organizationId, m) && |Cleared(Run(c, s, steps + [step]), organizationId)| <= m
  {
    var all := steps + [step];
    assert all[..|all|] == all;
    forall i | 0 <= i <= |steps| ensures |Cleared(Run(c, s, steps[..i]), organizationId)| <= m {
      assert all[..i] == steps[..i];
    }
  }

  /**
   * With no more than `m` creations cleared at once, an organization never has more than `m - 1` active
   * keys past its ceiling, whatever else runs but rotations.
   */
  lemma {:induction false} CeilingWithOverlap(c: Config, s: State, steps: seq<Step>, organizationId: string, m: nat)
    requires Sound(s.store) && s.tasks == map[] && (forall step :: step in steps ==> NoRotation(step))
    requires AtMostCleared(c, s, steps, organizationId, m)
    requires CountActive(s.store, organizationId) <= c.policy.maxKeysPerOrganization - 1 + m
    ensures var t := Run(c, s, steps);
            Sound(t.store) && CountActive(t.store, organizationId) + |Cleared(t, organizationId)| <= c.policy.maxKeysPerOrganization - 1 + m
  {
    hide *;
    SoundIsValid(s.store);
    NoTasks(s, organizationId, "");
    if steps == [] {
      RunNothing(c, s);
    } else {
      var front, last := steps[..|steps| - 1], steps[|steps| - 1];
      assert steps == front + [last];
      RunAppend(c, s, front, last);
      ClearedBefore(c, s, front, last, organizationId, m);
      CeilingWithOverlap(c, s, front, organizationId, m);
      NextKeepsSound(c, Run(c, s, front), last);
      ClearedStep(c, Run(c, s, front), last, organizationId, m);
    }
  }

  // --- the same for names -----------------------------------------------------

  lemma NoneHeld(s: Store, organizationId: string, name: string)
    requires s.records.Valid() && First(s.records.keys, s.records.vals, ApiKeys.Named(organizationId, name)).None?
    ensures Namesakes(s, organizationId, name) == 0
  {
    hide First, Matching;
    var held := KeysWhere(s.records, NamedIn(organizationId, name));
    assert forall k :: k in held ==> k in s.records.keys;
    assert forall k :: k !in held;
    NonEmptyHas(held);
  }

  lemma NonEmptyHas(ks: seq<string>)
    ensures ks != [] ==> exists k :: k in ks
  {
    if ks != [] { assert ks[0] in ks; }
  }

  lemma MakingStep(c: Config, s: State, step: Step, organizationId: string, name: string, m: nat)
    requires Sound(s.store) && NoRotation(step)
    requires |Making(Next(c, s, step), organizationId, name)| <= m
    requires Namesakes(s.store, organizationId, name) + |Making(s, organizationId, name)| <= m
    ensures Namesakes(Next(c, s, step).store, organizationId, name) + |Making(Next(c, s, step), organizationId, name)| <= m
  {
    if step.Finish? {
      FinishMaking(c, s, step.n, step.keyHash, organizationId, name);
    } else if step.Whole? {
      OtherHolds(c, s, step.op, NamedIn(organizationId, name));
      NamedIsLasting(organizationId, name);
      hide Next, KeysWhere;
    } else {
      CheckMaking(c, s, step, organizationId, name);
      hide Next, Namesakes, Making;
      if Making(Next(c, s, step), organizationId, name) <= Making(s, organizationId, name) {
        Fewer(Making(Next(c, s, step), organizationId, name), Making(s, organizationId, name));
      }
    }
  }

  /** A look or a count adds none of a name that is borne. */
  lemma CheckMaking(c: Config, s: State, step: Step, organizationId: string, name: string)
    requires s.store.records.Valid() && (step.Look? || step.Count?)
    ensures var t := Next(c, s, step);
            t.store == s.store
            && (Making(t, organizationId, name) <= Making(s, organizationId, name) || Namesakes(s.store, organizationId, name) == 0)
  {
    hide CountActive, Namesakes, First, ResolveExpiry;
    if step.Look? && NameFree(c, s.store, step.k, step.now) && step.k.organizationId == organizationId && step.k.name == name {
      NoneHeld(s.store, organizationId, name);
    }
  }

  lemma FinishMaking(c: Config, s: State, n: nat, keyHash: string, organizationId: string, name: string)
    requires Sound(s.store)
    ensures var t := Next(c, s, Finish(n, keyHash));
            Namesakes(t.store, organizationId, name) + |Making(t, organizationId, name)|
            == Namesakes(s.store, organizationId, name) + |Making(s, organizationId, name)|
  {
    var t := Next(c, s, Finish(n, keyHash));
    if n in s.tasks && s.tasks[n].Counted? {
      HeldAfterCreated(s.store, Fresh(s.tasks[n].k, keyHash, s.tasks[n].expiresAt, None), NamedIn(organizationId, name));
      hide KeysWhere, Created, Sound;
      assert Making(t, organizationId, name) == Making(s, organizationId, name) - {n};
    }
  }

  ghost predicate AtMostMaking(c: Config, s: State, steps: seq<Step>, organizationId: string, name: string, m: nat)
    requires s.store.records.Valid()
  {
    forall i :: 0 <= i <= |steps| ==> |Making(Run(c, s, steps[..i]), organizationId, name)| <= m
  }

  lemma MakingBefore(c: Config, s: State, steps: seq<Step>, step: Step, organizationId: string, name: string, m: nat)
    requires s.store.records.Valid() && AtMostMaking(c, s, steps + [step], organizationId, name, m)
    ensures AtMostMaking(c, s, steps, organizationId, name, m) && |Making(Run(c, s, steps + [step]), organizationId, name)| <= m
  {
    var all := steps + [step];
    assert all[..|all|] == all;
    forall i | 0 <= i <= |steps| ensures |Making(Run(c, s, steps[..i]), organizationId, name)| <= m {
      assert all[..i] == steps[..i];
    }
  }

  /** With no more than `m` creations of one name under way at once, no more than `m` keys bear it. */
  lemma {:induction false} NamesWithOverlap(c: Config, s: State, steps: seq<Step>, organizationId: string, name: string, m: nat)
    requires Sound(s.store) && s.tasks == map[] && (forall step :: step in steps ==> NoRotation(step))
    requires AtMostMaking(c, s, steps, organizationId, name, m) && Namesakes(s.store, organizationId, name) <= m
    ensures var t := Run(c, s, steps);
            Sound(t.store) && Namesakes(t.store, organizationId, name) + |Making(t, organizationId, name)| <= m
  {
    hide *;
    SoundIsValid(s.store);
    NoTasks(s, organizationId, name);
    if steps == [] {
      RunNothing(c, s);
    } else {
      var front, last := steps[..|steps| - 1], steps[|steps| - 1];
      assert steps == front + [last];
      RunAppend(c, s, front, last);
      MakingBefore(c, s, front, last, organizationId, name, m);
      NamesWithOverlap(c, s, front, organizationId, name, m);
      NextKeepsSound(c, Run(c, s, front), last);
      MakingStep(c, Run(c, s, front), last, organizationId, name, m);
    }
  }

  // --- and what they do add up to ---------------------------------------------

  /** So many creations of one key, each getting as far as it can before any stores. */
  function Clearing(k: NewKey, now: int, m: nat): seq<Step> {
    if m == 0 then [] else Clearing(k, now, m - 1) + [Look(m - 1, k, now)] + [Count(m - 1)]
  }

  function Finishing(hashes: nat -> string, m: nat): seq<Step> {
    if m == 0 then [] else Finishing(hashes, m - 1) + [Finish(m - 1, hashes(m - 1))]
  }

  function Overlapped(k: NewKey, now: int, hashes: nat -> string, m: nat): seq<Step> { Clearing(k, now, m) + Finishing(hashes, m) }

  /** These creations, and no others, have counted and are about to store. */
  ghost predicate Ready(tasks: map<nat, Task>, k: NewKey, expiresAt: Option<int>, from: nat, to: nat) {
    (forall n :: n in tasks <==> from <= n < to) && forall n :: n in tasks ==> tasks[n] == Counted(k, expiresAt)
  }

  lemma OneMoreReady(c: Config, s: State, k: NewKey, now: int, n: nat)
    requires s.store.records.Valid() && CreateError(c, s.store, k, now).None?
    requires Ready(s.tasks, k, ResolveExpiry(c.policy, k.lifetimeSeconds, now).value, 0, n)
    ensures var e := ResolveExpiry(c.policy, k.lifetimeSeconds, now).value; var t := Next(c, Next(c, s, Look(n, k, now)), Count(n));
            t.store == s.store && Ready(t.tasks, k, e, 0, n + 1)
  {
    hide First, CountActive, ResolveExpiry;
  }

  lemma Permitted(c: Config, s: Store, k: NewKey, now: int)
    requires s.records.Valid() && CreateError(c, s, k, now).None?
    ensures ResolveExpiry(c.policy, k.lifetimeSeconds, now).Some?
  {
    hide First, CountActive, ResolveExpiry;
  }

  lemma {:induction false} ClearingRuns(c: Config, s: Store, k: NewKey, now: int, m: nat)
    requires s.records.Valid() && CreateError(c, s, k, now).None?
    ensures ResolveExpiry(c.policy, k.lifetimeSeconds, now).Some?
    ensures var t := Run(c, State(s, map[]), Clearing(k, now, m));
            t.store == s && Ready(t.tasks, k, ResolveExpiry(c.policy, k.lifetimeSeconds, now).value, 0, m)
  {
    hide *;
    Permitted(c, s, k, now);
    ReadyNone(k, ResolveExpiry(c.policy, k.lifetimeSeconds, now).value);
    Unrolled(k, now, IdOf, m);
    var s0 := State(s, map[]);
    RunNothing(c, s0);
    if m > 0 {
      var before := Clearing(k, now, m - 1);
      ClearingRuns(c, s, k, now, m - 1);
      OneMoreReady(c, Run(c, s0, before), k, now, m - 1);
      RunAppend(c, s0, before, Look(m - 1, k, now));
      RunAppend(c, s0, before + [Look(m - 1, k, now)], Count(m - 1));
    }
  }

  lemma Unrolled(k: NewKey, now: int, hashes: nat -> string, m: nat)
    ensures Clearing(k, now, 0) == [] && Finishing(hashes, 0) == []
    ensures m > 0 ==> Clearing(k, now, m) == Clearing(k, now, m - 1) + [Look(m - 1, k, now)] + [Count(m - 1)]
    ensures m > 0 ==> Finishing(hashes, m) == Finishing(hashes, m - 1) + [Finish(m - 1, hashes(m - 1))]
  {
  }

  lemma ReadyNone(k: NewKey, expiresAt: Option<int>)
    ensures Ready(map[], k, expiresAt, 0, 0)
  {
  }

  /** All have counted, and the first `j` of them have stored. */
  ghost predicate Grown(s: Store, t: State, k: NewKey, expiresAt: Option<int>, j: nat, m: nat)
    requires s.records.Valid() && t.store.records.Valid()
  {
    && Sound(t.store) && Ready(t.tasks, k, expiresAt, j, m)
    && CountActive(t.store, k.organizationId) == CountActive(s, k.organizationId) + j
    && Namesakes(t.store, k.organizationId, k.name) == Namesakes(s, k.organizationId, k.name) + j
  }

  lemma StoredCounts(s: Store, k: NewKey, expiresAt: Option<int>, keyHash: string)
    requires Sound(s) && s.records.Valid()
    ensures var t := Created(s, Fresh(k, keyHash, expiresAt, None));
            && CountActive(t, k.organizationId) == CountActive(s, k.organizationId) + 1
            && Namesakes(t, k.organizationId, k.name) == Namesakes(s, k.organizationId, k.name) + 1
  {
    var r := Fresh(k, keyHash, expiresAt, None);
    hide KeysWhere, Created, Sound, IdOf;
    HeldAfterCreated(s, r, ActiveIn(k.organizationId));
    HeldAfterCreated(s, r, NamedIn(k.organizationId, k.name));
  }

  lemma FinishReady(c: Config, s: State, k: NewKey, expiresAt: Option<int>, keyHash: string, j: nat, m: nat)
    requires s.store.records.Valid() && j < m && Ready(s.tasks, k, expiresAt, j, m)
    ensures var t := Next(c, s, Finish(j, keyHash));
            t.store == Created(s.store, Fresh(k, keyHash, expiresAt, None)) && Ready(t.tasks, k, expiresAt, j + 1, m)
  {
    hide Created, Fresh;
  }

  lemma OneMoreStored(c: Config, s: Store, t: State, k: NewKey, expiresAt: Option<int>, keyHash: string, j: nat, m: nat)
    requires s.records.Valid() && t.store.records.Valid() && j < m && Grown(s, t, k, expiresAt, j, m)
    ensures Grown(s, Next(c, t, Finish(j, keyHash)), k, expiresAt, j + 1, m)
  {
    hide Next, Created, Sound, Ready, CountActive, Namesakes, Fresh;
    FinishReady(c, t, k, expiresAt, keyHash, j, m);
    StoredCounts(t.store, k, expiresAt, keyHash);
    NextKeepsSound(c, t, Finish(j, keyHash));
  }

  lemma {:induction false} FinishingRuns(c: Config, s: Store, k: NewKey, now: int, e: Option<int>, hashes: nat -> string, j: nat, m: nat)
    requires Sound(s) && s.records.Valid() && CreateError(c, s, k, now).None? && j <= m
    requires Some(e) == ResolveExpiry(c.policy, k.lifetimeSeconds, now)
    ensures Grown(s, Run(c, State(s, map[]), Clearing(k, now, m) + Finishing(hashes, j)), k, e, j, m)
  {
    hide *;
    Unrolled(k, now, hashes, j);
    var s0, cleared := State(s, map[]), Clearing(k, now, m);
    if j == 0 {
      assert cleared + [] == cleared;
      ClearingRuns(c, s, k, now, m);
      NoneStored(s, Run(c, s0, cleared), k, e, m);
    } else {
      var before, last := cleared + Finishing(hashes, j - 1), [Finish(j - 1, hashes(j - 1))];
      assert cleared + (Finishing(hashes, j - 1) + last) == before + last;
      FinishingRuns(c, s, k, now, e, hashes, j - 1, m);
      RunAppend(c, s0, before, Finish(j - 1, hashes(j - 1)));
      OneMoreStored(c, s, Run(c, s0, before), k, e, hashes(j - 1), j - 1, m);
    }
  }

  lemma NoneStored(s: Store, t: State, k: NewKey, expiresAt: Option<int>, m: nat)
    requires Sound(s) && s.records.Valid() && t.store == s && Ready(t.tasks, k, expiresAt, 0, m)
    ensures Grown(s, t, k, expiresAt, 0, m)
  {
    hide Sound, Ready, CountActive, Namesakes;
  }

  /** Where one creation would be allowed, any number of the same key at once all are: the count and the name both grow by it. */
  lemma OverlapAddsUp(c: Config, s: Store, k: NewKey, now: int, hashes: nat -> string, m: nat)
    requires Sound(s) && s.records.Valid() && CreateError(c, s, k, now).None?
    ensures var t := Run(c, State(s, map[]), Overlapped(k, now, hashes, m));
            && Sound(t.store) && t.tasks == map[]
            && CountActive(t.store, k.organizationId) == CountActive(s, k.organizationId) + m
            && Namesakes(t.store, k.organizationId, k.name) == m
  {
    Permitted(c, s, k, now);
    FinishingRuns(c, s, k, now, ResolveExpiry(c.policy, k.lifetimeSeconds, now).value, hashes, m, m);
    NoNamesake(c, s, k, now);
    hide Run, CountActive, Namesakes, Sound, CreateError, ResolveExpiry;
    assert Run(c, State(s, map[]), Overlapped(k, now, hashes, m)).tasks == map[];
  }

  ghost predicate Below(step: Step, m: nat) { !step.Whole? && step.n < m }

  lemma {:induction false} StepsBelow(k: NewKey, now: int, hashes: nat -> string, m: nat)
    ensures forall step :: step in Clearing(k, now, m) ==> Below(step, m)
    ensures forall step :: step in Finishing(hashes, m) ==> Below(step, m)
  {
    if m > 0 { StepsBelow(k, now, hashes, m - 1); }
  }

  lemma NextBelow(c: Config, s: State, step: Step, m: nat)
    requires s.store.records.Valid() && Below(step, m) && forall n :: n in s.tasks ==> n < m
    ensures forall n :: n in Next(c, s, step).tasks ==> n < m
  {
    hide Created, CountActive, NameFree, ResolveExpiry;
  }

  lemma {:induction false} TasksBelow(c: Config, s: Store, steps: seq<Step>, m: nat)
    requires s.records.Valid() && forall step :: step in steps ==> Below(step, m)
    ensures forall n :: n in Run(c, State(s, map[]), steps).tasks ==> n < m
  {
    if steps != [] {
      var front, last := steps[..|steps| - 1], steps[|steps| - 1];
      assert steps == front + [last] && last in steps;
      hide Next, Below, Run;
      RunAppend(c, State(s, map[]), front, last);
      TasksBelow(c, s, front, m);
      NextBelow(c, Run(c, State(s, map[]), front), last, m);
    }
  }

  lemma {:induction false} SizeBelow(a: set<nat>, m: nat)
    requires forall n :: n in a ==> n < m
    ensures |a| <= m
  {
    if m == 0 {
      assert a == {};
    } else {
      SizeBelow(a - {m - 1}, m - 1);
    }
  }

  lemma OverlappedAtMost(c: Config, s: Store, k: NewKey, now: int, hashes: nat -> string, m: nat)
    requires s.records.Valid()
    ensures var steps := Overlapped(k, now, hashes, m);
            && AtMostCleared(c, State(s, map[]), steps, k.organizationId, m)
            && AtMostMaking(c, State(s, map[]), steps, k.organizationId, k.name, m)
            && forall step :: step in steps ==> NoRotation(step)
  {
    var steps := Overlapped(k, now, hashes, m);
    StepsBelow(k, now, hashes, m);
    forall i | 0 <= i <= |steps|
      ensures |Cleared(Run(c, State(s, map[]), steps[..i]), k.organizationId)| <= m
      ensures |Making(Run(c, State(s, map[]), steps[..i]), k.organizationId, k.name)| <= m
    {
      assert forall step :: step in steps[..i] ==> step in steps;
      TasksBelow(c, s, steps[..i], m);
      var t := Run(c, State(s, map[]), steps[..i]);
      hide Run, Overlapped, Below;
      SizeBelow(Cleared(t, k.organizationId), m);
      SizeBelow(Making(t, k.organizationId, k.name), m);
    }
  }

  /**
   * For an organization one key short of its ceiling: the ceiling holds in every run without rotations
   * in which at most `m` creations are cleared at once, exactly when `m` is no more than one.
   */
  lemma CeilingHoldsExactly(c: Config, s: Store, k: NewKey, now: int, m: nat)
    requires Sound(s) && s.records.Valid() && CreateError(c, s, k, now).None?
    requires CountActive(s, k.organizationId) + 1 == c.policy.maxKeysPerOrganization
    ensures (forall steps :: AtMostCleared(c, State(s, map[]), steps, k.organizationId, m) && (forall step :: step in steps ==> NoRotation(step)) ==>
                               CountActive(Run(c, State(s, map[]), steps).store, k.organizationId) <= c.policy.maxKeysPerOrganization)
            <==> m <= 1
  {
    hide *;
    if m <= 1 {
      forall steps | AtMostCleared(c, State(s, map[]), steps, k.organizationId, m) && forall step :: step in steps ==> NoRotation(step)
        ensures CountActive(Run(c, State(s, map[]), steps).store, k.organizationId) <= c.policy.maxKeysPerOrganization
      {
        CeilingWithOverlap(c, State(s, map[]), steps, k.organizationId, m);
      }
    } else {
      OverlapAddsUp(c, s, k, now, IdOf, m);
      OverlappedAtMost(c, s, k, now, IdOf, m);
    }
  }

  /** And names stay apart in every such run exactly when no more than one creation of a name is under way at once. */
  lemma NamesStayApartExactly(c: Config, s: Store, k: NewKey, now: int, m: nat)
    requires Sound(s) && s.records.Valid() && CreateError(c, s, k, now).None?
    ensures (forall steps :: AtMostMaking(c, State(s, map[]), steps, k.organizationId, k.name, m) && (forall step :: step in steps ==> NoRotation(step)) ==>
                               Namesakes(Run(c, State(s, map[]), steps).store, k.organizationId, k.name) <= 1)
            <==> m <= 1
  {
    NoNamesake(c, s, k, now);
    hide *;
    if m <= 1 {
      forall steps | AtMostMaking(c, State(s, map[]), steps, k.organizationId, k.name, m) && forall step :: step in steps ==> NoRotation(step)
        ensures Namesakes(Run(c, State(s, map[]), steps).store, k.organizationId, k.name) <= 1
      {
        NamesWithOverlap(c, State(s, map[]), steps, k.organizationId, k.name, m);
      }
    } else {
      OverlapAddsUp(c, s, k, now, IdOf, m);
      OverlappedAtMost(c, s, k, now, IdOf, m);
    }
  }

  lemma NoNamesake(c: Config, s: Store, k: NewKey, now: int)
    requires s.records.Valid() && CreateError(c, s, k, now).None?
    ensures Namesakes(s, k.organizationId, k.name) == 0
  {
    NoneHeld(s, k.organizationId, k.name);
  }

  /** An organization allowed one key asks for it twice at once, and has two of one name. */
  lemma TwoAtOnce()
    ensures var t := Run(OneKey(), State(Store(Empty(), 0), map[]), Overlapped(KeyFor(3600), 0, IdOf, 2)).store;
            CountActive(t, "org") == 2 > OneKey().policy.maxKeysPerOrganization && Namesakes(t, "org", "key") == 2
  {
    EmptyStore();
    FirstCreated(3600);
    hide Run, CountActive, Namesakes, Sound, CreateError, Overlapped;
    OverlapAddsUp(OneKey(), Store(Empty(), 0), KeyFor(3600), 0, IdOf, 2);
  }
}
