/** Cache lookups that overlap other calls: a lookup reads, and later writes back or removes by what it read. */
module AiCacheRaces {
  import opened Text
  import opened JsMap
  import opened AiCaches

  /** A lookup that has read: a hit to be counted on the entry it read, or an entry to be removed by its key. */
  datatype Task = WriteBack(entry: Entry) | Remove(key: string)

  datatype RaceState = RaceState(entries: Entries, tasks: map<nat, Task>)

  /** Every other operation is one step. */
  datatype RaceStep =
    | BeginGet(n: nat, input: KeyInput, at: int)
    | FinishGet(n: nat)
    | SetValue(stored: SetInput, at: int)
    | Invalidate(prefix: string)
    | Purge(at: int)

  /** What a lookup's read leaves to be done, if it found anything. */
  function ToDo(c: Config, entries: Entries, input: KeyInput, at: int): Option<Task> {
    var key := BuildCacheKey(c.sha256, input);
    match entries.Get(key)
    case None => None
    case Some(e) => Some(if e.expiresAt <= at || e.organizationId != input.organizationId then Remove(key) else WriteBack(e))
  }

  function Finished(c: Config, entries: Entries, task: Task): (r: Entries)
    requires entries.Valid()
    ensures r.Valid()
  {
    match task
    case WriteBack(e) => StorePut(entries, c.maxEntries, e.(hits := e.hits + 1))
    case Remove(key) => entries.Delete(key)
  }

  function Stored(c: Config, i: SetInput, at: int): Entry {
    Entry(BuildCacheKey(c.sha256, i.input), i.input.organizationId, i.value, i.savedCostCents, i.savedTokens, ExpiryOf(c, i, at), 0)
  }

  /** One step; a step that is not enabled changes nothing. */
  function Next(c: Config, s: RaceState, step: RaceStep): (t: RaceState)
    requires s.entries.Valid()
    ensures t.entries.Valid()
  {
    match step
    case BeginGet(n, input, at) =>
      var task := ToDo(c, s.entries, input, at);
      if n in s.tasks || !c.policy.enabled || task.None? then s else s.(tasks := s.tasks[n := task.value])
    case FinishGet(n) => if n !in s.tasks then s else RaceState(Finished(c, s.entries, s.tasks[n]), s.tasks - {n})
    case SetValue(i, at) => if !Accepts(c, i) then s else s.(entries := StorePut(s.entries, c.maxEntries, Stored(c, i, at)))
    case Invalidate(prefix) => s.(entries := DeleteWhere(s.entries, HasPrefix(prefix)))
    case Purge(at) => s.(entries := DeleteWhere(s.entries, ExpiredBy(at)))
  }

  function Run(c: Config, s: RaceState, steps: seq<RaceStep>): (t: RaceState)
    requires s.entries.Valid()
    ensures t.entries.Valid()
  {
    if steps == [] then s else Next(c, Run(c, s, steps[..|steps| - 1]), steps[|steps| - 1])
  }

  lemma RunAppend(c: Config, s: RaceState, steps: seq<RaceStep>, step: RaceStep)
    requires s.entries.Valid()
    ensures Run(c, s, steps + [step]) == Next(c, Run(c, s, steps), step)
  {
    assert (steps + [step])[..|steps|] == steps;
  }

  /** With nothing in between, a read and what follows it are the lookup as it runs alone. */
  lemma AloneIsGet(c: Config, s: RaceState, m: Metrics, n: nat, input: KeyInput, at: int)
    requires s.entries.Valid() && n !in s.tasks
    ensures Next(c, Next(c, s, BeginGet(n, input, at)), FinishGet(n)).entries == GetStep(c, State(s.entries, m), input, true, at).0.entries
  {
    hide BuildCacheKey, StorePut;
  }

  /** Every other operation does to the entries what it does alone. */
  lemma OthersAreWhole(c: Config, s: RaceState, m: Metrics, i: SetInput, at: int, org: Option<string>, kind: Kind)
    requires s.entries.Valid()
    ensures Next(c, s, SetValue(i, at)).entries == Step(c, State(s.entries, m), DoSet(i, at)).entries
    ensures Next(c, s, Invalidate(OrganizationPrefix(org))).entries == Step(c, State(s.entries, m), DoInvalidateOrganization(org)).entries
    ensures Next(c, s, Invalidate(KindPrefix(org, kind))).entries == Step(c, State(s.entries, m), DoInvalidateKind(org, kind)).entries
    ensures Next(c, s, Purge(at)).entries == Step(c, State(s.entries, m), DoPurge(at)).entries
  {
    hide BuildCacheKey, StorePut, DeleteWhere, KeysWhere, OrganizationPrefix, KindPrefix, ExpiryOf;
  }

  // --- what every step keeps --------------------------------------------------

  /** Every entry sits under its own key. */
  ghost predicate OwnKeys(entries: Entries) { entries.Valid() && forall k :: k in entries.vals ==> entries.vals[k].key == k }

  lemma PutKeepsOwnKeys(entries: Entries, maxEntries: int, e: Entry)
    requires OwnKeys(entries)
    ensures var r := StorePut(entries, maxEntries, e);
            && OwnKeys(r) && e.key in r.vals && r.vals[e.key] == e
            && forall k :: k in r.vals && k != e.key ==> k in entries.vals && r.vals[k] == entries.vals[k]
  {
  }

  lemma NextKeepsOwnKeys(c: Config, s: RaceState, step: RaceStep)
    requires OwnKeys(s.entries)
    ensures OwnKeys(Next(c, s, step).entries)
  {
    hide BuildCacheKey, StorePut, DeleteWhere;
    match step
    case FinishGet(n) =>
      if n in s.tasks && s.tasks[n].WriteBack? {
        var e := s.tasks[n].entry;
        PutKeepsOwnKeys(s.entries, c.maxEntries, e.(hits := e.hits + 1));
      }
    case SetValue(i, at) => PutKeepsOwnKeys(s.entries, c.maxEntries, Stored(c, i, at));
    case _ =>
  }

  // --- when an invalidated entry comes back -----------------------------------

  ghost predicate NoneUnder(entries: Entries, prefix: string) { forall k :: k in entries.vals ==> !StartsWith(k, prefix) }

  /** No lookup is about to write back an entry under the prefix. */
  ghost predicate NonePending(s: RaceState, prefix: string) {
    forall n :: n in s.tasks && s.tasks[n].WriteBack? ==> !StartsWith(s.tasks[n].entry.key, prefix)
  }

  /** Nothing is set under the prefix. */
  ghost predicate NotSet(c: Config, steps: seq<RaceStep>, prefix: string) {
    forall step :: step in steps && step.SetValue? && Accepts(c, step.stored) ==>
      !StartsWith(BuildCacheKey(c.sha256, step.stored.input), prefix)
  }

  lemma NextStaysOut(c: Config, s: RaceState, step: RaceStep, prefix: string)
    requires OwnKeys(s.entries) && NoneUnder(s.entries, prefix) && NonePending(s, prefix) && NotSet(c, [step], prefix)
    ensures NoneUnder(Next(c, s, step).entries, prefix) && NonePending(Next(c, s, step), prefix)
  {
    hide BuildCacheKey, StorePut, StartsWith, DeleteWhere;
    match step
    case FinishGet(n) =>
      if n in s.tasks && s.tasks[n].WriteBack? {
        var e := s.tasks[n].entry;
        PutKeepsOwnKeys(s.entries, c.maxEntries, e.(hits := e.hits + 1));
      }
    case SetValue(i, at) =>
      assert step in [step];
      PutKeepsOwnKeys(s.entries, c.maxEntries, Stored(c, i, at));
    case _ =>
  }

  lemma {:induction false} RunStaysOut(c: Config, s: RaceState, steps: seq<RaceStep>, prefix: string)
    requires OwnKeys(s.entries) && NoneUnder(s.entries, prefix) && NonePending(s, prefix) && NotSet(c, steps, prefix)
    ensures var t := Run(c, s, steps); OwnKeys(t.entries) && NoneUnder(t.entries, prefix) && NonePending(t, prefix)
  {
    hide Next, NoneUnder, NonePending, OwnKeys, BuildCacheKey, Accepts, StartsWith;
    if steps != [] {
      var front, last := steps[..|steps| - 1], steps[|steps| - 1];
      assert last in steps && forall step :: step in front ==> step in steps;
      assert s.entries.Valid() by { KeysValid(s.entries); }
      RunStaysOut(c, s, front, prefix);
      NextKeepsOwnKeys(c, Run(c, s, front), last);
      NextStaysOut(c, Run(c, s, front), last, prefix);
    }
  }

  lemma KeysValid(entries: Entries)
    requires OwnKeys(entries)
    ensures entries.Valid()
  {
  }

  /**
   * What an invalidation drops stays out, until it is set again, exactly when no lookup that had read an
   * entry under the prefix has yet to write it back.
   */
  lemma InvalidatedStaysOutExactly(c: Config, s: RaceState, prefix: string)
    requires OwnKeys(s.entries)
    ensures (forall more :: NotSet(c, more, prefix) ==> NoneUnder(Run(c, Next(c, s, Invalidate(prefix)), more).entries, prefix))
            <==> NonePending(s, prefix)
  {
    var t := Next(c, s, Invalidate(prefix));
    NextKeepsOwnKeys(c, s, Invalidate(prefix));
    Invalidated(c, s, prefix);
    hide OwnKeys, NotSet, Next, NoneUnder, StartsWith, Run;
    if NonePending(s, prefix) {
      assert NonePending(t, prefix);
      forall more | NotSet(c, more, prefix) ensures NoneUnder(Run(c, t, more).entries, prefix) { RunStaysOut(c, t, more, prefix); }
    } else {
      var n :| n in s.tasks && s.tasks[n].WriteBack? && StartsWith(s.tasks[n].entry.key, prefix);
      NothingSet(c, n, prefix);
      FinishedComesBack(c, t, n, prefix);
    }
  }

  lemma Invalidated(c: Config, s: RaceState, prefix: string)
    requires s.entries.Valid()
    ensures var t := Next(c, s, Invalidate(prefix)); NoneUnder(t.entries, prefix) && t.tasks == s.tasks
  {
  }

  lemma FinishedComesBack(c: Config, t: RaceState, n: nat, prefix: string)
    requires OwnKeys(t.entries) && n in t.tasks && t.tasks[n].WriteBack? && StartsWith(t.tasks[n].entry.key, prefix)
    ensures !NoneUnder(Run(c, t, [FinishGet(n)]).entries, prefix)
  {
    WrittenBack(c, t, n);
    RunAppend(c, t, [], FinishGet(n));
    assert [] + [FinishGet(n)] == [FinishGet(n)] && Run(c, t, []) == t;
    hide Next, Run, StartsWith, OwnKeys;
  }

  lemma NothingSet(c: Config, n: nat, prefix: string)
    ensures NotSet(c, [FinishGet(n)], prefix)
  {
  }

  /** A write-back puts what was read, whatever has been set, dropped or pushed out since. */
  lemma WrittenBack(c: Config, s: RaceState, n: nat)
    requires OwnKeys(s.entries) && n in s.tasks && s.tasks[n].WriteBack?
    ensures var e := s.tasks[n].entry; var t := Next(c, s, FinishGet(n));
            e.key in t.entries.vals && t.entries.vals[e.key] == e.(hits := e.hits + 1)
  {
    var e := s.tasks[n].entry;
    hide StorePut;
    PutKeepsOwnKeys(s.entries, c.maxEntries, e.(hits := e.hits + 1));
  }

  /** So it undoes a set that came in between, exactly when that set another value or expiry. */
  lemma SetUndoneExactly(c: Config, s: RaceState, n: nat, i: SetInput, at: int)
    requires OwnKeys(s.entries) && n in s.tasks && s.tasks[n].WriteBack? && Accepts(c, i)
    requires s.tasks[n].entry.key == BuildCacheKey(c.sha256, i.input)
    ensures var e := s.tasks[n].entry;
            var after := Next(c, s, SetValue(i, at)); var back := Next(c, after, FinishGet(n));
            && e.key in after.entries.vals && after.entries.vals[e.key] == Stored(c, i, at)
            && e.key in back.entries.vals
            && (back.entries.vals[e.key].value != i.value || back.entries.vals[e.key].expiresAt != ExpiryOf(c, i, at)
                <==> e.value != i.value || e.expiresAt != ExpiryOf(c, i, at))
  {
    hide BuildCacheKey, StorePut, ExpiryOf;
    PutKeepsOwnKeys(s.entries, c.maxEntries, Stored(c, i, at));
    WrittenBack(c, Next(c, s, SetValue(i, at)), n);
  }

  /** A removal goes by the key: a value set since the expired one was read is removed with it. */
  lemma SetRemoved(c: Config, s: RaceState, n: nat, i: SetInput, at: int)
    requires OwnKeys(s.entries) && n in s.tasks && s.tasks[n] == Remove(BuildCacheKey(c.sha256, i.input)) && Accepts(c, i)
    ensures BuildCacheKey(c.sha256, i.input) !in Next(c, Next(c, s, SetValue(i, at)), FinishGet(n)).entries.vals
  {
    hide BuildCacheKey, StorePut;
  }

  // --- reached from an empty cache --------------------------------------------

  function Nothing(): RaceState { RaceState(Empty(), map[]) }

  /** A value is set, looked up, and its tenant invalidated before the lookup writes back. */
  function InvalidatedMidway(i: SetInput, at: int, read: int): seq<RaceStep> {
    [SetValue(i, at)] + [BeginGet(0, i.input, read)] + [Invalidate(OrganizationPrefix(i.input.organizationId))] + [FinishGet(0)]
  }

  lemma FirstStored(c: Config, i: SetInput, at: int, read: int)
    requires Accepts(c, i) && read < ExpiryOf(c, i, at)
    ensures var s := Next(c, Nothing(), SetValue(i, at)); var e := Stored(c, i, at);
            && OwnKeys(s.entries) && s.tasks == map[]
            && Next(c, s, BeginGet(0, i.input, read)) == s.(tasks := map[0 := WriteBack(e)])
  {
    hide BuildCacheKey, ExpiryOf;
    PutKeepsOwnKeys(Empty(), c.maxEntries, Stored(c, i, at));
    hide StorePut;
  }

  lemma MidwayState(c: Config, i: SetInput, at: int, read: int)
    requires Accepts(c, i) && read < ExpiryOf(c, i, at)
    ensures var s := Run(c, Nothing(), InvalidatedMidway(i, at, read)[..3]);
            OwnKeys(s.entries) && s.tasks == map[0 := WriteBack(Stored(c, i, at))]
  {
    var prefix := OrganizationPrefix(i.input.organizationId);
    var a, b, d := [SetValue(i, at)], [BeginGet(0, i.input, read)], [Invalidate(prefix)];
    assert Run(c, Nothing(), []) == Nothing() && [] + a == a && InvalidatedMidway(i, at, read)[..3] == a + b + d;
    FirstStored(c, i, at, read);
    hide Run, Accepts;
    RunAppend(c, Nothing(), [], SetValue(i, at));
    RunAppend(c, Nothing(), a, BeginGet(0, i.input, read));
    RunAppend(c, Nothing(), a + b, Invalidate(prefix));
    var s := Run(c, Nothing(), a + b);
    NextKeepsOwnKeys(c, s, Invalidate(prefix));
    Invalidated(c, s, prefix);
    hide *;
  }

  lemma Served(c: Config, s: RaceState, i: SetInput, at: int, read: int)
    requires s.entries.Valid() && Accepts(c, i) && read < ExpiryOf(c, i, at)
    requires var e := Stored(c, i, at); e.key in s.entries.vals && s.entries.vals[e.key] == e.(hits := 1)
    ensures GetStep(c, State(s.entries, Metrics(0, 0, 0, 0, 0, 0, 0)), i.input, true, read).1 == Some(i.value)
  {
    hide BuildCacheKey, StorePut, ExpiryOf;
  }

  /** Whatever the cache, the value and its tenant: it is back, and is served to whoever asks in time. */
  lemma InvalidatedComesBack(c: Config, i: SetInput, at: int, read: int)
    requires Accepts(c, i) && read < ExpiryOf(c, i, at)
    ensures var t := Run(c, Nothing(), InvalidatedMidway(i, at, read)); var e := Stored(c, i, at);
            e.key in t.entries.vals && t.entries.vals[e.key] == e.(hits := 1)
            && GetStep(c, State(t.entries, Metrics(0, 0, 0, 0, 0, 0, 0)), i.input, true, read).1 == Some(i.value)
  {
    var steps := InvalidatedMidway(i, at, read);
    assert steps == steps[..3] + [FinishGet(0)];
    MidwayState(c, i, at, read);
    var s := Run(c, Nothing(), steps[..3]);
    RunAppend(c, Nothing(), steps[..3], FinishGet(0));
    WrittenBack(c, s, 0);
    assert Stored(c, i, at).hits == 0;
    Served(c, Next(c, s, FinishGet(0)), i, at, read);
    hide *;
  }
}
