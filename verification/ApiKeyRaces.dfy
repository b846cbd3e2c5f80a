/** Rotations and revocations of one key that overlap: each read and each write is a step of its own. */
module ApiKeyRaces {
  import opened Text
  import JsMap
  import opened ApiKeys

  /** A call in flight: a rotation that has read, or has also created its replacement; a revocation that has read. */
  datatype Task =
    | Rotating(seen: Record)
    | Replacing(seen: Record, now: int)
    | Revoking(id: string, reason: string)

  datatype State = State(store: Store, tasks: map<nat, Task>)

  datatype Step =
    | BeginRotate(n: nat, id: string, organizationId: string)
    | Replace(n: nat, keyHash: string, now: int)
    | Retire(n: nat)
    | BeginRevoke(n: nat, id: string, organizationId: string, reason: string)
    | FinishRevoke(n: nat, now: int)
    | Whole(op: Op)

  /** The record an `update` leaves: the patch applied to what is stored by then. */
  function Retired(p: Policy, current: Record, seen: Record, now: int): Record {
    current.(expiresAt := Some(GraceExpiry(p, seen.expiresAt, now)))
  }

  function Unrevoked(s: Store, id: string, organizationId: string): Option<Record> {
    match FindById(s, id, organizationId)
    case None => None
    case Some(r) => if r.revokedAt.Some? then None else Some(r)
  }

  /** One step; a step that is not enabled changes nothing. Creations and verifications are single steps. */
  function Next(c: Config, s: State, step: Step): (t: State)
    requires s.store.records.Valid()
    ensures t.store.records.Valid()
  {
    match step
    case BeginRotate(n, id, organizationId) =>
      var found := Unrevoked(s.store, id, organizationId);
      if n in s.tasks || found.None? then s else s.(tasks := s.tasks[n := Rotating(found.value)])
    case Replace(n, keyHash, now) =>
      if !(n in s.tasks && s.tasks[n].Rotating?) then s
      else
        var seen := s.tasks[n].seen;
        if ResolveExpiry(c.policy, RemainingSeconds(seen.expiresAt, now), now).None? then s.(tasks := s.tasks - {n})
        else State(Created(s.store, Replacement(c, seen, keyHash, now)), s.tasks[n := Replacing(seen, now)])
    case Retire(n) =>
      if !(n in s.tasks && s.tasks[n].Replacing?) then s
      else
        var Replacing(seen, now) := s.tasks[n];
        var rest := s.tasks - {n};
        if !s.store.records.Has(seen.id) then s.(tasks := rest)
        else State(Updated(s.store, seen.id, Retired(c.policy, s.store.records.vals[seen.id], seen, now)), rest)
    case BeginRevoke(n, id, organizationId, reason) =>
      if n in s.tasks || Unrevoked(s.store, id, organizationId).None? then s
      else s.(tasks := s.tasks[n := Revoking(id, reason)])
    case FinishRevoke(n, now) =>
      if !(n in s.tasks && s.tasks[n].Revoking?) then s
      else
        var Revoking(id, reason) := s.tasks[n];
        var rest := s.tasks - {n};
        if !s.store.records.Has(id) then s.(tasks := rest)
        else State(Updated(s.store, id, s.store.records.vals[id].(revokedAt := Some(now), revokedReason := Some(reason))), rest)
    case Whole(op) => if op.DoCreate? || op.DoVerify? then s.(store := ApiKeys.Step(c, s.store, op)) else s
  }

  function Run(c: Config, s: State, steps: seq<Step>): (t: State)
    requires s.store.records.Valid()
    ensures t.store.records.Valid()
  {
    if steps == [] then s else Next(c, Run(c, s, steps[..|steps| - 1]), steps[|steps| - 1])
  }

  lemma RunAppend(c: Config, s: State, steps: seq<Step>, step: Step)
    requires s.store.records.Valid()
    ensures Run(c, s, steps + [step]) == Next(c, Run(c, s, steps), step)
  {
    assert (steps + [step])[..|steps|] == steps;
  }

  // --- one call on its own ----------------------------------------------------

  /** The steps of a rotation with nothing in between are the rotation as it runs alone. */
  lemma AloneIsRotate(c: Config, s: State, n: nat, id: string, organizationId: string, keyHash: string, now: int)
    requires Sound(s.store) && n !in s.tasks
    ensures Next(c, Next(c, Next(c, s, BeginRotate(n, id, organizationId)), Replace(n, keyHash, now)), Retire(n))
            == s.(store := RotateStep(c, s.store, id, organizationId, keyHash, now))
  {
    assert s.tasks - {n} == s.tasks;
    if Unrevoked(s.store, id, organizationId).Some? {
      var seen := s.store.records.vals[id];
      var read := s.tasks[n := Rotating(seen)];
      assert read - {n} == s.tasks && read[n := Replacing(seen, now)] - {n} == s.tasks;
    }
    hide Created, Updated, Replacement, ResolveExpiry, RemainingSeconds, GraceExpiry;
  }

  /** And those of a revocation the revocation. */
  lemma AloneIsRevoke(c: Config, s: State, n: nat, id: string, organizationId: string, reason: string, now: int)
    requires Sound(s.store) && n !in s.tasks
    ensures Next(c, Next(c, s, BeginRevoke(n, id, organizationId, reason)), FinishRevoke(n, now))
            == s.(store := RevokeStep(s.store, id, organizationId, reason, now))
  {
    assert s.tasks - {n} == s.tasks && s.tasks[n := Revoking(id, reason)] - {n} == s.tasks;
    hide Updated;
  }

  // --- what every interleaving keeps ------------------------------------------

  /** Which record this is, and that once revoked it is revoked; the instants may have been written again. */
  ghost predicate SameKey(r: Record, t: Record) {
    && t.id == r.id && t.organizationId == r.organizationId && t.keyHash == r.keyHash
    && t.scopes == r.scopes && t.ipAllowlist == r.ipAllowlist && t.rotatedFromId == r.rotatedFromId
    && (r.revokedAt.Some? ==> t.revokedAt.Some?)
    && (r.expiresAt.Some? ==> t.expiresAt.Some?)
  }

  ghost predicate Onward(s: Store, t: Store) {
    forall k :: k in s.records.vals ==> k in t.records.vals && SameKey(s.records.vals[k], t.records.vals[k])
  }

  lemma OnwardThenOnward(s: Store, t: Store, u: Store)
    requires Onward(s, t) && Onward(t, u)
    ensures Onward(s, u)
  {
  }

  lemma UpdatedKeeps(s: Store, id: string, r: Record)
    requires Sound(s) && id in s.records.vals && SameKey(s.records.vals[id], r)
    ensures Sound(Updated(s, id, r)) && Onward(s, Updated(s, id, r))
  {
  }

  lemma LaterIsOnward(s: Store, t: Store)
    requires Later(s, t)
    ensures Onward(s, t)
  {
  }

  lemma NextKeeps(c: Config, s: State, step: Step)
    requires Sound(s.store)
    ensures Sound(Next(c, s, step).store) && Onward(s.store, Next(c, s, step).store)
  {
    assert Onward(s.store, s.store);
    hide Replacement, Created, ApiKeys.Step;
    match step
    case Replace(n, keyHash, now) =>
      if n in s.tasks && s.tasks[n].Rotating?
         && ResolveExpiry(c.policy, RemainingSeconds(s.tasks[n].seen.expiresAt, now), now).Some? {
        CreatedIsLater(s.store, Replacement(c, s.tasks[n].seen, keyHash, now));
        LaterIsOnward(s.store, Created(s.store, Replacement(c, s.tasks[n].seen, keyHash, now)));
      }
    case Retire(n) =>
      if n in s.tasks && s.tasks[n].Replacing? && s.store.records.Has(s.tasks[n].seen.id) {
        var seen := s.tasks[n].seen;
        UpdatedKeeps(s.store, seen.id, Retired(c.policy, s.store.records.vals[seen.id], seen, s.tasks[n].now));
      }
    case FinishRevoke(n, now) =>
      if n in s.tasks && s.tasks[n].Revoking? && s.store.records.Has(s.tasks[n].id) {
        var id := s.tasks[n].id;
        UpdatedKeeps(s.store, id, s.store.records.vals[id].(revokedAt := Some(now), revokedReason := Some(s.tasks[n].reason)));
      }
    case Whole(op) =>
      StepIsLater(c, s.store, op);
      LaterIsOnward(s.store, ApiKeys.Step(c, s.store, op));
    case _ =>
  }

  /** However rotations and revocations overlap, no key changes what it is and none comes back from revocation. */
  lemma {:induction false} RevocationStays(c: Config, s: State, steps: seq<Step>)
    requires Sound(s.store)
    ensures Sound(Run(c, s, steps).store) && Onward(s.store, Run(c, s, steps).store)
  {
    hide Sound, Onward, Next;
    assert s.store.records.Valid() by { SoundIsValid(s.store); }
    if steps == [] {
      OnwardItself(s.store);
    } else {
      var front := steps[..|steps| - 1];
      RevocationStays(c, s, front);
      NextKeeps(c, Run(c, s, front), steps[|steps| - 1]);
      OnwardThenOnward(s.store, Run(c, s, front).store, Run(c, s, steps).store);
    }
  }

  lemma OnwardItself(s: Store)
    ensures Onward(s, s)
  {
  }

  // --- when an expiry moves later ---------------------------------------------

  ghost predicate MovesLater(r: Record, t: Record) {
    r.expiresAt.Some? && (t.expiresAt.None? || t.expiresAt.value > r.expiresAt.value)
  }

  /** The pending write would put the expiry past where it stands: the call read a later one, or none, and its grace ends later. */
  ghost predicate StaleRetire(c: Config, s: State, step: Step, id: string)
    requires id in s.store.records.vals
  {
    && step.Retire? && step.n in s.tasks && s.tasks[step.n].Replacing? && s.tasks[step.n].seen.id == id
    && s.store.records.vals[id].expiresAt.Some?
    && var Replacing(seen, now) := s.tasks[step.n]; var e := s.store.records.vals[id].expiresAt.value;
       (seen.expiresAt.None? || e < seen.expiresAt.value) && e < now + c.policy.rotationGraceSeconds * 1000
  }

  predicate RetiresOn(s: State, step: Step, id: string) {
    step.Retire? && step.n in s.tasks && s.tasks[step.n].Replacing? && s.tasks[step.n].seen.id == id
  }

  lemma CreatedKeeps(s: Store, r: Record, id: string)
    requires Sound(s) && id in s.records.vals
    ensures id in Created(s, r).records.vals && Created(s, r).records.vals[id] == s.records.vals[id]
  {
    NextIdIsNew(s);
    hide IdOf;
  }

  /** Nothing but a rotation retiring this very key touches its expiry. */
  lemma ExpiryStands(c: Config, s: State, step: Step, id: string)
    requires Sound(s.store) && id in s.store.records.vals && !RetiresOn(s, step, id)
    ensures id in Next(c, s, step).store.records.vals
    ensures Next(c, s, step).store.records.vals[id].expiresAt == s.store.records.vals[id].expiresAt
  {
    match step
    case Replace(n, keyHash, now) =>
      if n in s.tasks && s.tasks[n].Rotating?
         && ResolveExpiry(c.policy, RemainingSeconds(s.tasks[n].seen.expiresAt, now), now).Some? {
        CreatedKeeps(s.store, Replacement(c, s.tasks[n].seen, keyHash, now), id);
      }
      hide Created, Sound, Replacement, ResolveExpiry;
    case Whole(op) =>
      if op.DoCreate? || op.DoVerify? { CreateOrVerifyKeepsExpiry(c, s.store, op, id); }
      hide ApiKeys.Step, Sound;
    case _ => hide Sound;
  }

  lemma CreateOrVerifyKeepsExpiry(c: Config, s: Store, op: Op, id: string)
    requires Sound(s) && id in s.records.vals && (op.DoCreate? || op.DoVerify?)
    ensures id in ApiKeys.Step(c, s, op).records.vals && ApiKeys.Step(c, s, op).records.vals[id].expiresAt == s.records.vals[id].expiresAt
  {
    NextIdIsNew(s);
    hide IdOf, Judge, Sound;
  }

  /** In any state of any interleaving, a step moves a key's expiry later exactly when it is such a write. */
  lemma ExpiryMovesLaterExactly(c: Config, s: State, step: Step, id: string)
    requires Sound(s.store) && id in s.store.records.vals
    ensures id in Next(c, s, step).store.records.vals
    ensures MovesLater(s.store.records.vals[id], Next(c, s, step).store.records.vals[id]) <==> StaleRetire(c, s, step, id)
  {
    if !RetiresOn(s, step, id) {
      ExpiryStands(c, s, step, id);
      hide Next;
    }
  }

  /** No rotation of this key writes its expiry during these steps. */
  ghost predicate NoRetireOn(c: Config, s: State, steps: seq<Step>, id: string)
    requires s.store.records.Valid()
  {
    forall i :: 0 <= i < |steps| ==> !RetiresOn(Run(c, s, steps[..i]), steps[i], id)
  }

  /** What the call read of the key's expiry is what is stored. */
  predicate UpToDate(s: State, n: nat, id: string) {
    id in s.store.records.vals
    && (n in s.tasks && !s.tasks[n].Revoking? && s.tasks[n].seen.id == id ==>
          s.tasks[n].seen.expiresAt == s.store.records.vals[id].expiresAt)
  }

  lemma StaysUpToDate(c: Config, s: State, step: Step, n: nat, id: string)
    requires Sound(s.store) && UpToDate(s, n, id) && !RetiresOn(s, step, id)
    ensures UpToDate(Next(c, s, step), n, id)
  {
    ExpiryStands(c, s, step, id);
    TasksAfter(c, s, step, n, id);
    hide Next;
  }

  /** What a step makes a rotation of this key remember: what it did, or what is stored now. */
  lemma TasksAfter(c: Config, s: State, step: Step, n: nat, id: string)
    requires Sound(s.store)
    ensures var t := Next(c, s, step);
            n in t.tasks && !t.tasks[n].Revoking? && t.tasks[n].seen.id == id ==>
              (n in s.tasks && !s.tasks[n].Revoking? && s.tasks[n].seen == t.tasks[n].seen)
              || (id in s.store.records.vals && t.tasks[n].seen == s.store.records.vals[id])
  {
    hide Created, Updated, ApiKeys.Step, Replacement;
  }

  /**
   * A rotation whose read and write enclose no other write to the key's expiry never moves it later,
   * whatever else runs in between.
   */
  lemma {:induction false} AloneNeverLater(c: Config, s: State, steps: seq<Step>, n: nat, id: string)
    requires Sound(s.store) && UpToDate(s, n, id) && NoRetireOn(c, s, steps, id)
    ensures Sound(Run(c, s, steps).store) && UpToDate(Run(c, s, steps), n, id)
    ensures !StaleRetire(c, Run(c, s, steps), Retire(n), id)
  {
    if steps != [] {
      var front := steps[..|steps| - 1];
      forall i | 0 <= i < |front| ensures !RetiresOn(Run(c, s, front[..i]), front[i], id) {
        assert front[..i] == steps[..i] && !RetiresOn(Run(c, s, steps[..i]), steps[i], id);
      }
      assert steps[..|steps| - 1] == front && !RetiresOn(Run(c, s, steps[..|steps| - 1]), steps[|steps| - 1], id);
      hide Next, Sound, NoRetireOn, RetiresOn, UpToDate, StaleRetire;
      assert NoRetireOn(c, s, front, id) by { NoRetireOnIs(c, s, front, id); }
      AloneNeverLater(c, s, front, n, id);
      NextKeeps(c, Run(c, s, front), steps[|steps| - 1]);
      StaysUpToDate(c, Run(c, s, front), steps[|steps| - 1], n, id);
    }
    NotStale(c, Run(c, s, steps), n, id);
  }

  lemma NoRetireOnIs(c: Config, s: State, steps: seq<Step>, id: string)
    requires s.store.records.Valid()
    requires forall i :: 0 <= i < |steps| ==> !RetiresOn(Run(c, s, steps[..i]), steps[i], id)
    ensures NoRetireOn(c, s, steps, id)
  {
  }

  lemma NotStale(c: Config, s: State, n: nat, id: string)
    requires UpToDate(s, n, id)
    ensures !StaleRetire(c, s, Retire(n), id)
  {
  }

  // --- two rotations at once --------------------------------------------------

  /** A state in which the key is there to rotate and nobody is at it. */
  ghost predicate Idle(s: State, id: string, organizationId: string) {
    Sound(s.store) && s.tasks == map[] && Unrevoked(s.store, id, organizationId).Some?
  }

  function BothRead(id: string, organizationId: string): seq<Step> {
    [BeginRotate(0, id, organizationId), BeginRotate(1, id, organizationId)]
  }

  lemma BothHaveRead(c: Config, s: State, id: string, organizationId: string)
    requires Idle(s, id, organizationId)
    ensures var seen := s.store.records.vals[id];
            Run(c, s, BothRead(id, organizationId)) == State(s.store, map[0 := Rotating(seen), 1 := Rotating(seen)])
  {
    var a, b := BeginRotate(0, id, organizationId), BeginRotate(1, id, organizationId);
    var seen := s.store.records.vals[id];
    BothBegin(c, s, id, organizationId);
    assert Run(c, s, []) == s && [] + [a] == [a] && [a] + [b] == [a, b];
    hide Sound, Idle, Run, Next;
    RunAppend(c, s, [], a);
    RunAppend(c, s, [a], b);
  }

  lemma BothBegin(c: Config, s: State, id: string, organizationId: string)
    requires Idle(s, id, organizationId)
    ensures s.store.records.Valid() && id in s.store.records.vals
    ensures var seen := s.store.records.vals[id]; var once := State(s.store, map[0 := Rotating(seen)]);
            && Next(c, s, BeginRotate(0, id, organizationId)) == once
            && Next(c, once, BeginRotate(1, id, organizationId)) == State(s.store, map[0 := Rotating(seen), 1 := Rotating(seen)])
  {
    var seen := s.store.records.vals[id];
    assert map[0 := Rotating(seen)][1 := Rotating(seen)] == map[0 := Rotating(seen), 1 := Rotating(seen)];
    assert map[][0 := Rotating(seen)] == map[0 := Rotating(seen)];
    hide Sound;
  }

  lemma ReplaceEffect(c: Config, s: State, n: nat, seen: Record, keyHash: string, now: int)
    requires Sound(s.store) && n in s.tasks && s.tasks[n] == Rotating(seen)
    requires ResolveExpiry(c.policy, RemainingSeconds(seen.expiresAt, now), now).Some?
    ensures var t, newId := Next(c, s, Replace(n, keyHash, now)), IdOf(s.store.counter + 1);
            && Sound(t.store) && t.tasks == s.tasks[n := Replacing(seen, now)] && newId !in s.store.records.vals
            && t.store.records.vals == s.store.records.vals[newId := Replacement(c, seen, keyHash, now).(id := newId)]
  {
    NextIdIsNew(s.store);
    NextKeeps(c, s, Replace(n, keyHash, now));
    hide Sound, IdOf, Onward, Replacement, ResolveExpiry;
  }

  lemma RetireEffect(c: Config, s: State, n: nat, seen: Record, now: int)
    requires Sound(s.store) && n in s.tasks && s.tasks[n] == Replacing(seen, now) && seen.id in s.store.records.vals
    ensures var t := Next(c, s, Retire(n));
            && Sound(t.store) && t.tasks == s.tasks - {n}
            && t.store.records.vals == s.store.records.vals[seen.id := Retired(c.policy, s.store.records.vals[seen.id], seen, now)]
  {
    NextKeeps(c, s, Retire(n));
    hide Sound, Onward, Retired;
  }

  /** Replacing leaves the key itself alone, and retiring sets its expiry by what was read. */
  lemma ReplaceThenRetire(c: Config, s: State, n: nat, seen: Record, keyHash: string, now: int)
    requires Sound(s.store) && n in s.tasks && s.tasks[n] == Rotating(seen) && seen.id in s.store.records.vals
    requires ResolveExpiry(c.policy, RemainingSeconds(seen.expiresAt, now), now).Some?
    ensures var t, newId := Next(c, Next(c, s, Replace(n, keyHash, now)), Retire(n)), IdOf(s.store.counter + 1);
            && Sound(t.store) && t.tasks == s.tasks - {n} && newId !in s.store.records.vals
            && t.store.records.vals == s.store.records.vals[newId := Replacement(c, seen, keyHash, now).(id := newId)]
                                                           [seen.id := Retired(c.policy, s.store.records.vals[seen.id], seen, now)]
  {
    assert s.store.records.Valid();
    hide Sound, IdOf, Replacement, Retired, Next, ResolveExpiry;
    ReplaceEffect(c, s, n, seen, keyHash, now);
    RetireEffect(c, Next(c, s, Replace(n, keyHash, now)), n, seen, now);
    assert s.tasks[n := Replacing(seen, now)] - {n} == s.tasks - {n};
  }

  /**
   * Two rotations that both read a key before either writes it: when the second writes, the expiry
   * the first had set moves later exactly when the key was not to stop by the end of the first grace
   * period, and then by no more than the time between them.
   */
  lemma OverlapMovesExpiryLater(c: Config, s: State, id: string, organizationId: string, one: string, two: string, first: int, second: int)
    requires Idle(s, id, organizationId) && first < second
    requires ResolveExpiry(c.policy, RemainingSeconds(s.store.records.vals[id].expiresAt, first), first).Some?
    requires ResolveExpiry(c.policy, RemainingSeconds(s.store.records.vals[id].expiresAt, second), second).Some?
    ensures var read := Run(c, s, BothRead(id, organizationId)); var was := s.store.records.vals[id].expiresAt;
            var once := Next(c, Next(c, read, Replace(0, one, first)), Retire(0));
            var twice := Next(c, Next(c, once, Replace(1, two, second)), Retire(1));
            && id in once.store.records.vals && id in twice.store.records.vals
            && var e, f := once.store.records.vals[id].expiresAt, twice.store.records.vals[id].expiresAt;
               && e.Some? && f.Some? && f.value <= e.value + (second - first)
               && (f.value > e.value <==> was.None? || was.value > first + c.policy.rotationGraceSeconds * 1000)
  {
    BothHaveRead(c, s, id, organizationId);
    var read, seen := Run(c, s, BothRead(id, organizationId)), s.store.records.vals[id];
    assert seen.id == id;
    hide Run, Next, BothRead, ResolveExpiry, RemainingSeconds, GraceExpiry, Idle, Sound, Replacement;
    ReplaceThenRetire(c, read, 0, seen, one, first);
    var once := Next(c, Next(c, read, Replace(0, one, first)), Retire(0));
    ReplaceThenRetire(c, once, 1, seen, two, second);
    GraceEnds(c.policy, seen.expiresAt, first, second);
  }

  lemma GraceEnds(p: Policy, expiresAt: Option<int>, first: int, second: int)
    requires first < second
    ensures GraceExpiry(p, expiresAt, second) > GraceExpiry(p, expiresAt, first)
            <==> expiresAt.None? || expiresAt.value > first + p.rotationGraceSeconds * 1000
    ensures GraceExpiry(p, expiresAt, second) <= GraceExpiry(p, expiresAt, first) + (second - first)
  {
  }

  // --- a revocation in the middle of a rotation -------------------------------

  /** A rotation goes ahead by what it read: what has been revoked since does not stop its replacement. */
  lemma ReplacementIgnoresRevocation(c: Config, s: State, n: nat, keyHash: string, now: int)
    requires Sound(s.store) && n in s.tasks && s.tasks[n].Rotating?
    requires ResolveExpiry(c.policy, RemainingSeconds(s.tasks[n].seen.expiresAt, now), now).Some?
    ensures var t := Next(c, s, Replace(n, keyHash, now)); var id := IdOf(s.store.counter + 1);
            && id !in s.store.records.vals && id in t.store.records.vals
            && var r := t.store.records.vals[id];
               && r.revokedAt.None? && r.keyHash == keyHash && r.scopes == s.tasks[n].seen.scopes
               && r.ipAllowlist == s.tasks[n].seen.ipAllowlist && r.organizationId == s.tasks[n].seen.organizationId
  {
    NextIdIsNew(s.store);
    hide IdOf, Sound;
  }

  /** Only a revocation already written when a rotation reads stops it there; otherwise it goes on with what it read. */
  lemma RevokedFirstStopsRotation(c: Config, s: State, n: nat, id: string, organizationId: string)
    requires s.store.records.Valid() && n !in s.tasks
    ensures var read := Next(c, s, BeginRotate(n, id, organizationId)); var found := Unrevoked(s.store, id, organizationId);
            && (read == s <==> FindById(s.store, id, organizationId).None? || s.store.records.vals[id].revokedAt.Some?)
            && (n in read.tasks <==> found.Some?) && (found.Some? ==> read.tasks[n] == Rotating(found.value))
  {
    assert Unrevoked(s.store, id, organizationId).Some? ==>
      n in s.tasks[n := Rotating(Unrevoked(s.store, id, organizationId).value)];
  }

  /** A step of another call. */
  predicate Elsewhere(step: Step, n: nat) { step.Whole? || step.n != n }

  lemma NextElsewhere(c: Config, s: State, step: Step, n: nat)
    requires s.store.records.Valid() && Elsewhere(step, n)
    ensures var t := Next(c, s, step); (n in t.tasks <==> n in s.tasks) && (n in s.tasks ==> t.tasks[n] == s.tasks[n])
  {
    hide Created, Updated, ApiKeys.Step, Replacement, ResolveExpiry, Retired, Unrevoked;
  }

  lemma {:induction false} RunElsewhere(c: Config, s: State, steps: seq<Step>, n: nat)
    requires s.store.records.Valid() && forall step :: step in steps ==> Elsewhere(step, n)
    ensures var t := Run(c, s, steps); (n in t.tasks <==> n in s.tasks) && (n in s.tasks ==> t.tasks[n] == s.tasks[n])
  {
    if steps != [] {
      var front := steps[..|steps| - 1];
      hide Next, Elsewhere;
      RunElsewhere(c, s, front, n);
      NextElsewhere(c, Run(c, s, front), steps[|steps| - 1], n);
    }
  }

  /**
   * Whatever runs between a rotation's read and its creation, revocations of that very key included, a
   * replacement is created exactly when the read found the key unrevoked and its lifetime is permitted.
   */
  lemma RotationDecidedAtRead(c: Config, s: State, n: nat, id: string, organizationId: string, between: seq<Step>, keyHash: string, now: int)
    requires s.store.records.Valid() && n !in s.tasks && forall step :: step in between ==> Elsewhere(step, n)
    ensures var t := Run(c, Next(c, s, BeginRotate(n, id, organizationId)), between); var u := Next(c, t, Replace(n, keyHash, now));
            var found := Unrevoked(s.store, id, organizationId);
            && u.store.counter == t.store.counter + (if found.Some? && ResolveExpiry(c.policy, RemainingSeconds(found.value.expiresAt, now), now).Some? then 1 else 0)
            && (u.store.counter == t.store.counter ==> u.store == t.store)
  {
    var read := Next(c, s, BeginRotate(n, id, organizationId));
    RevokedFirstStopsRotation(c, s, n, id, organizationId);
    RunElsewhere(c, read, between, n);
    ReplaceCounts(c, Run(c, read, between), n, keyHash, now);
    hide Next, Run, Unrevoked, ResolveExpiry, RemainingSeconds, Elsewhere;
  }

  lemma ReplaceCounts(c: Config, s: State, n: nat, keyHash: string, now: int)
    requires s.store.records.Valid()
    ensures var u := Next(c, s, Replace(n, keyHash, now));
            var permitted := n in s.tasks && s.tasks[n].Rotating? && ResolveExpiry(c.policy, RemainingSeconds(s.tasks[n].seen.expiresAt, now), now).Some?;
            u.store.counter == s.store.counter + (if permitted then 1 else 0) && (!permitted ==> u.store == s.store)
  {
    hide Replacement, ResolveExpiry, RemainingSeconds, IdOf;
  }

  /** Revoked after the rotation read, and before it creates. */
  function RevokedMidway(id: string, organizationId: string, reason: string, at: int): seq<Step> {
    [BeginRotate(0, id, organizationId), BeginRevoke(1, id, organizationId, reason), FinishRevoke(1, at)]
  }

  lemma MidwayState(c: Config, s: State, id: string, organizationId: string, reason: string, at: int)
    requires Idle(s, id, organizationId)
    ensures var t, seen := Run(c, s, RevokedMidway(id, organizationId, reason, at)), s.store.records.vals[id];
            && Sound(t.store) && t.tasks == map[0 := Rotating(seen)] && t.store.counter == s.store.counter
            && t.store.records.vals == s.store.records.vals[id := Struck(seen, reason, at)]
  {
    hide *;
    IdleKey(s, id, organizationId);
    var seen := s.store.records.vals[id];
    var both := State(s.store, map[0 := Rotating(seen), 1 := Revoking(id, reason)]);
    MidwayIsNext(c, s, id, organizationId, reason, at);
    Begins(c, s, id, organizationId, reason);
    NextKeeps(c, both, FinishRevoke(1, at));
    RevokeEffect(c, both, id, reason, at);
    assert both.tasks - {1} == map[0 := Rotating(seen)];
  }

  lemma MidwayIsNext(c: Config, s: State, id: string, organizationId: string, reason: string, at: int)
    requires s.store.records.Valid()
    ensures Run(c, s, RevokedMidway(id, organizationId, reason, at))
            == Next(c, Next(c, Next(c, s, BeginRotate(0, id, organizationId)), BeginRevoke(1, id, organizationId, reason)), FinishRevoke(1, at))
  {
    var a, b, f := BeginRotate(0, id, organizationId), BeginRevoke(1, id, organizationId, reason), FinishRevoke(1, at);
    assert Run(c, s, []) == s;
    assert [] + [a] == [a] && [a] + [b] == [a, b] && [a, b] + [f] == [a, b, f];
    hide Run, Next;
    RunAppend(c, s, [], a);
    RunAppend(c, s, [a], b);
    RunAppend(c, s, [a, b], f);
  }

  lemma Begins(c: Config, s: State, id: string, organizationId: string, reason: string)
    requires Idle(s, id, organizationId)
    ensures Sound(s.store) && id in s.store.records.vals
    ensures var one := State(s.store, map[0 := Rotating(s.store.records.vals[id])]);
            && Next(c, s, BeginRotate(0, id, organizationId)) == one
            && Next(c, one, BeginRevoke(1, id, organizationId, reason)) == one.(tasks := one.tasks[1 := Revoking(id, reason)])
  {
    hide Sound;
  }

  lemma RevokeEffect(c: Config, s: State, id: string, reason: string, at: int)
    requires s.store.records.Valid() && 1 in s.tasks && s.tasks[1] == Revoking(id, reason) && id in s.store.records.vals
    ensures var t := Next(c, s, FinishRevoke(1, at));
            && t.tasks == s.tasks - {1} && t.store.counter == s.store.counter
            && t.store.records.vals == s.store.records.vals[id := Struck(s.store.records.vals[id], reason, at)]
  {
  }

  /** The whole of it: read, revoked, replaced, retired. */
  function Overtaken(c: Config, s: State, id: string, organizationId: string, reason: string, at: int, keyHash: string, now: int): (t: State)
    requires s.store.records.Valid()
    ensures t.store.records.Valid()
  {
    Next(c, Next(c, Run(c, s, RevokedMidway(id, organizationId, reason, at)), Replace(0, keyHash, now)), Retire(0))
  }

  /**
   * A revocation that lands between a rotation's read and its creation stops the key, and leaves a
   * replacement of the same reach that nobody revoked.
   */
  lemma RevocationLeavesReplacement(c: Config, s: State, id: string, organizationId: string, reason: string, at: int,
                                    keyHash: string, now: int)
    requires Idle(s, id, organizationId)
    requires ResolveExpiry(c.policy, RemainingSeconds(s.store.records.vals[id].expiresAt, now), now).Some?
    ensures var t, newId := Overtaken(c, s, id, organizationId, reason, at, keyHash, now), IdOf(s.store.counter + 1);
            && Sound(t.store) && t.tasks == map[] && newId !in s.store.records.vals
            && t.store.records.vals.Keys == s.store.records.vals.Keys + {newId}
            && t.store.records.vals[id].revokedAt == Some(at)
            && t.store.records.vals[newId] == Replacement(c, s.store.records.vals[id], keyHash, now).(id := newId)
            && forall k :: k in s.store.records.vals ==> t.store.records.vals[k].keyHash == s.store.records.vals[k].keyHash
  {
    hide *;
    IdleKey(s, id, organizationId);
    OvertakenIs(c, s, id, organizationId, reason, at, keyHash, now);
    NextIdIsNew(s.store);
    RetiredStruck(c.policy, s.store.records.vals[id], reason, at, now);
  }

  lemma RetiredStruck(p: Policy, seen: Record, reason: string, at: int, now: int)
    ensures var r := Retired(p, Struck(seen, reason, at), seen, now); r.keyHash == seen.keyHash && r.revokedAt == Some(at)
  {
  }

  function Struck(r: Record, reason: string, at: int): Record { r.(revokedAt := Some(at), revokedReason := Some(reason)) }

  lemma OvertakenIs(c: Config, s: State, id: string, organizationId: string, reason: string, at: int, keyHash: string, now: int)
    requires Idle(s, id, organizationId)
    requires ResolveExpiry(c.policy, RemainingSeconds(s.store.records.vals[id].expiresAt, now), now).Some?
    ensures var t, newId := Overtaken(c, s, id, organizationId, reason, at, keyHash, now), IdOf(s.store.counter + 1);
            var seen := s.store.records.vals[id]; var revoked := Struck(seen, reason, at);
            && Sound(t.store) && t.tasks == map[]
            && t.store.records.vals == s.store.records.vals[id := revoked][newId := Replacement(c, seen, keyHash, now).(id := newId)]
                                                           [id := Retired(c.policy, revoked, seen, now)]
  {
    hide *;
    IdleKey(s, id, organizationId);
    var seen := s.store.records.vals[id];
    MidwayState(c, s, id, organizationId, reason, at);
    FromMidway(c, Run(c, s, RevokedMidway(id, organizationId, reason, at)), s.store.records.vals, seen, Struck(seen, reason, at), keyHash, now);
    OvertakenIsNext(c, s, id, organizationId, reason, at, keyHash, now);
  }

  lemma IdleKey(s: State, id: string, organizationId: string)
    requires Idle(s, id, organizationId)
    ensures Sound(s.store) && s.store.records.Valid() && id in s.store.records.vals && s.store.records.vals[id].id == id
  {
  }

  lemma OvertakenIsNext(c: Config, s: State, id: string, organizationId: string, reason: string, at: int, keyHash: string, now: int)
    requires s.store.records.Valid()
    ensures Overtaken(c, s, id, organizationId, reason, at, keyHash, now)
            == Next(c, Next(c, Run(c, s, RevokedMidway(id, organizationId, reason, at)), Replace(0, keyHash, now)), Retire(0))
  {
    hide Run, Next, RevokedMidway;
  }

  lemma FromMidway(c: Config, s: State, vals: map<string, Record>, seen: Record, revoked: Record, keyHash: string, now: int)
    requires Sound(s.store) && s.tasks == map[0 := Rotating(seen)] && s.store.records.vals == vals[seen.id := revoked]
    requires ResolveExpiry(c.policy, RemainingSeconds(seen.expiresAt, now), now).Some?
    ensures var t, newId := Next(c, Next(c, s, Replace(0, keyHash, now)), Retire(0)), IdOf(s.store.counter + 1);
            && Sound(t.store) && t.tasks == map[]
            && t.store.records.vals == vals[seen.id := revoked][newId := Replacement(c, seen, keyHash, now).(id := newId)]
                                           [seen.id := Retired(c.policy, revoked, seen, now)]
  {
    hide *;
    ReplaceThenRetire(c, s, 0, seen, keyHash, now);
    assert map[0 := Rotating(seen)] - {0} == map[];
  }

  /** So the caller who was to be stopped can go on: the replacement is accepted wherever the key was. */
  lemma ReplacementVerifies(c: Config, s: State, id: string, organizationId: string, reason: string, at: int,
                            keyHash: string, now: int, k: Presented, later: int)
    requires Idle(s, id, organizationId)
    requires ResolveExpiry(c.policy, RemainingSeconds(s.store.records.vals[id].expiresAt, now), now).Some?
    requires forall j :: j in s.store.records.vals ==> s.store.records.vals[j].keyHash != keyHash
    requires k.keyHash == keyHash && k.wellFormed && k.rightEnvironment && k.organizationAvailable
    requires IpAllowlist.AddressAllowed(k.ipAddress, s.store.records.vals[id].ipAllowlist)
    ensures var t := Overtaken(c, s, id, organizationId, reason, at, keyHash, now).store;
            var e := ResolveExpiry(c.policy, RemainingSeconds(s.store.records.vals[id].expiresAt, now), now).value;
            Judge(t, k, later).Verified? <==> e.None? || later < e.value
  {
    RevocationLeavesReplacement(c, s, id, organizationId, reason, at, keyHash, now);
    var t, newId := Overtaken(c, s, id, organizationId, reason, at, keyHash, now).store, IdOf(s.store.counter + 1);
    var seen := s.store.records.vals[id];
    ReplacementReach(c, seen, keyHash, now);
    hide Overtaken, Idle, Sound, Replacement, IdOf, ResolveExpiry, IpAllowlist.AddressAllowed;
    OnlyRecord(t, newId, keyHash);
    hide FindByHash;
  }

  lemma OnlyRecord(s: Store, id: string, keyHash: string)
    requires s.records.Valid() && id in s.records.vals && s.records.vals[id].keyHash == keyHash
    requires forall k :: k in s.records.vals && k != id ==> s.records.vals[k].keyHash != keyHash
    ensures FindByHash(s, keyHash) == Some(s.records.vals[id])
  {
    assert id in s.records.keys;
  }

  lemma ReplacementReach(c: Config, seen: Record, keyHash: string, now: int)
    requires ResolveExpiry(c.policy, RemainingSeconds(seen.expiresAt, now), now).Some?
    ensures var r := Replacement(c, seen, keyHash, now);
            r.revokedAt.None? && r.keyHash == keyHash && r.ipAllowlist == seen.ipAllowlist && r.scopes == seen.scopes
            && r.organizationId == seen.organizationId
            && r.expiresAt == ResolveExpiry(c.policy, RemainingSeconds(seen.expiresAt, now), now).value
  {
  }

  // --- reached from an empty store --------------------------------------------

  /** One key, good for an hour, and nobody at it. */
  function HourKey(): State { State(FirstStore(3600), map[]) }

  lemma HourKeyIsIdle()
    ensures HourKey().store == RunFrom(OneKey(), Store(JsMap.Empty(), 0), [DoCreate(KeyFor(3600), "first", 0)])
    ensures Idle(HourKey(), "key_1", "org") && HourKey().store.records.vals == map["key_1" := FirstRecord(3600)]
  {
    FirstCreated(3600);
    assert [DoCreate(KeyFor(3600), "first", 0)][..0] == [];
    hide CreateStep, Sound;
  }

  /** Rotated by two callers at once, ten seconds apart: the later write gives the key ten seconds more. */
  lemma OverlapHappens()
    ensures var c := OneKey();
            var once := Next(c, Next(c, Run(c, HourKey(), BothRead("key_1", "org")), Replace(0, "one", 0)), Retire(0));
            var twice := Next(c, Next(c, once, Replace(1, "two", 10_000)), Retire(1));
            "key_1" in once.store.records.vals && "key_1" in twice.store.records.vals
            && MovesLater(once.store.records.vals["key_1"], twice.store.records.vals["key_1"])
  {
    HourKeyIsIdle();
    hide Run, Next, BothRead, Idle, FirstStore;
    OverlapMovesExpiryLater(OneKey(), HourKey(), "key_1", "org", "one", "two", 0, 10_000);
  }

  /** Revoked while being rotated: the key is revoked, and its replacement is accepted for the rest of the hour. */
  lemma RevocationOutlived(k: Presented, later: int)
    requires k == Presented(true, true, "second", None, true) && later < 3_600_000
    ensures var t := Overtaken(OneKey(), HourKey(), "key_1", "org", "leaked", 2_000, "second", 3_000).store;
            "key_1" in t.records.vals && t.records.vals["key_1"].revokedAt == Some(2_000) && Judge(t, k, later).Verified?
  {
    HourKeyIsIdle();
    HourKeyIs();
    hide *;
    RevocationLeavesReplacement(OneKey(), HourKey(), "key_1", "org", "leaked", 2_000, "second", 3_000);
    ReplacementVerifies(OneKey(), HourKey(), "key_1", "org", "leaked", 2_000, "second", 3_000, k, later);
  }

  lemma HourKeyIs()
    ensures var vals := HourKey().store.records.vals;
            && "key_1" in vals && vals["key_1"].ipAllowlist == [] && vals["key_1"].expiresAt == Some(3_600_000)
            && (forall j :: j in vals ==> vals[j].keyHash != "second")
    ensures ResolveExpiry(OneKey().policy, RemainingSeconds(Some(3_600_000), 3_000), 3_000) == Some(Some(3_600_000))
    ensures IpAllowlist.AddressAllowed(None, [])
  {
    HourKeyIsIdle();
    hide HourKey, Idle;
    assert "second" != "first" by { assert "second"[0] != "first"[0]; }
  }
}
