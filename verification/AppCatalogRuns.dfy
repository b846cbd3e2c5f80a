/** Any number of containers over one table: every await is a point where others run or one crashes. */
module AppCatalogRuns {
  import opened AppCatalogs

  /** A `create` in flight: its row not yet written, written, or refused by the unique constraint. */
  datatype Call = Writing(app: App) | Written(app: App) | Conflicted(app: App)

  datatype Container =
    | Down
    | Loading(build: Build)
    | Seeding(build: Build, done: nat)
    | Serving(build: Build, apps: map<Key, App>, calls: map<nat, Call>)

  /** `acked` lists the applications whose `create` returned to its caller, in that order. */
  datatype State = State(table: Table, containers: map<nat, Container>, acked: seq<App>)

  datatype Step =
    | Start(c: nat, build: Build)
    | FindRows(c: nat)
    | SeedOne(c: nat)
    | Begin(c: nat, call: nat, app: App)
    | Insert(c: nat, call: nat)
    // the insert fails with an error that is not a conflict, its row committed or not
    | Lose(c: nat, call: nat, committed: bool)
    | Complete(c: nat, call: nat)
    | Crash(c: nat)

  function At(s: State, c: nat): Container { if c in s.containers then s.containers[c] else Down }

  function Put(s: State, c: nat, to: Container): State { s.(containers := s.containers[c := to]) }

  /** One atomic step; a step that is not enabled changes nothing. */
  function Next(environment: Environment, s: State, step: Step): State
    requires Keyed(s.table)
  {
    match step
    case Start(c, build) => if At(s, c).Down? then Put(s, c, Loading(build)) else s
    case Crash(c) => Put(s, c, Down)
    case FindRows(c) =>
      if !At(s, c).Loading? then s
      else
        var build := At(s, c).build;
        if |s.table| == 0 && |build.seed| > 0 then Put(s, c, Seeding(build, 0))
        else Put(s, c, Serving(build, Parsed(s.table, build), map[]))
    case SeedOne(c) =>
      if !At(s, c).Seeding? then s
      else
        var Seeding(build, done) := At(s, c);
        if done < |build.seed| then
          Put(s, c, Seeding(build, done + 1)).(table := Inserted(s.table, build.seed[done]))
        else (
          match RegisterAll(build, build.seed)
          case None => Put(s, c, Down)
          case Some(apps) => Put(s, c, Serving(build, apps, map[])))
    case Begin(c, call, app) =>
      if !At(s, c).Serving? || call in At(s, c).calls || !At(s, c).build.parses(app) || app.environment != environment then s
      else Put(s, c, At(s, c).(calls := At(s, c).calls[call := Writing(app)]))
    case Insert(c, call) =>
      if !(At(s, c).Serving? && call in At(s, c).calls && At(s, c).calls[call].Writing?) then s
      else
        var app := At(s, c).calls[call].app;
        var reply := if app.appId in s.table then Conflicted(app) else Written(app);
        Put(s, c, At(s, c).(calls := At(s, c).calls[call := reply])).(table := Inserted(s.table, app))
    case Lose(c, call, committed) =>
      if !(At(s, c).Serving? && call in At(s, c).calls && At(s, c).calls[call].Writing?) then s
      else
        var app := At(s, c).calls[call].app;
        Put(s, c, At(s, c).(calls := At(s, c).calls - {call})).(table := if committed then Inserted(s.table, app) else s.table)
    case Complete(c, call) =>
      if !(At(s, c).Serving? && call in At(s, c).calls && !At(s, c).calls[call].Writing?) then s
      else
        var k, rest := At(s, c), At(s, c).calls - {call};
        var app := k.calls[call].app;
        if k.calls[call].Conflicted? || KeyOf(app) in k.apps then Put(s, c, k.(calls := rest))
        else Put(s, c, k.(apps := k.apps[KeyOf(app) := app], calls := rest)).(acked := s.acked + [app])
  }

  function Run(environment: Environment, steps: seq<Step>): (s: State)
    ensures Keyed(s.table)
  {
    if steps == [] then State(map[], map[], [])
    else
      var before := Run(environment, steps[..|steps| - 1]);
      KeyedKept(environment, before, steps[|steps| - 1]);
      Next(environment, before, steps[|steps| - 1])
  }

  lemma KeyedKept(environment: Environment, s: State, step: Step)
    requires Keyed(s.table)
    ensures Keyed(Next(environment, s, step).table)
  {
  }

  // --- one container on its own -----------------------------------------------

  /** The steps of a `create` with nothing in between: what the method promises, and the caller told of it. */
  lemma AloneCreates(environment: Environment, s: State, c: nat, call: nat, app: App)
    requires Keyed(s.table) && At(s, c).Serving? && call !in At(s, c).calls && KeyOf(app) !in At(s, c).apps
    ensures var k := At(s, c); var begun := Next(environment, s, Begin(c, call, app));
            && begun.table == s.table
            && if !k.build.parses(app) || app.environment != environment then begun == s
               else
                 var inserted := Next(environment, begun, Insert(c, call));
                 && Keyed(inserted.table)
                 && var t := Next(environment, inserted, Complete(c, call));
                    && At(t, c) == (if app.appId in s.table then k else k.(apps := k.apps[(app.environment, app.appId) := app]))
                    && t.table == (if app.appId in s.table then s.table else s.table[app.appId := app])
                    && t.acked == (if app.appId in s.table then s.acked else s.acked + [app])
  {
    var k := At(s, c);
    assert k.calls[call := Writing(app)] - {call} == k.calls;
    assert k.calls[call := Writing(app)][call := Conflicted(app)] - {call} == k.calls;
    assert k.calls[call := Writing(app)][call := Written(app)] - {call} == k.calls;
    hide Parsed, RegisterAll;
  }

  /** What a container does when it first looks: it serves the rows it finds, or nothing, or goes on to seed. */
  lemma AloneLooks(environment: Environment, s: State, c: nat, build: Build)
    requires Keyed(s.table) && At(s, c).Down?
    ensures var started := Next(environment, s, Start(c, build));
            && started.table == s.table
            && var t := Next(environment, started, FindRows(c));
               t.table == s.table && t.acked == s.acked
               && if s.table == map[] && build.seed != [] then At(t, c) == Seeding(build, 0)
                  else At(t, c).Serving? && At(t, c).build == build && At(t, c).calls == map[]
                       && (forall k :: k in At(t, c).apps ==> k.1 in s.table && At(t, c).apps[k] == s.table[k.1] && build.parses(s.table[k.1]))
                       && forall id :: id in s.table && build.parses(s.table[id]) ==> (s.table[id].environment, id) in At(t, c).apps
  {
    assert |s.table| == 0 <==> s.table == map[];
    assert forall id :: id in s.table ==> KeyOf(s.table[id]) == (s.table[id].environment, id);
    hide Parsed;
  }

  /** What failures leave: a crash, nothing of the container; an insert that fails, its row or not, and no answer. */
  lemma FailuresLeave(environment: Environment, s: State, c: nat, call: nat, committed: bool)
    requires Keyed(s.table)
    ensures var t := Next(environment, s, Crash(c)); At(t, c) == Down && t.table == s.table && t.acked == s.acked
    ensures var k, t := At(s, c), Next(environment, s, Lose(c, call, committed));
            if k.Serving? && call in k.calls && k.calls[call].Writing? then
              var app := k.calls[call].app;
              && t.acked == s.acked && At(t, c) == k.(calls := k.calls - {call})
              && t.table == if committed && app.appId !in s.table then s.table[app.appId := app] else s.table
            else t == s
  {
  }

  // --- the invariant ----------------------------------------------------------

  /** What one container knows is true of the table. */
  ghost predicate Sound(table: Table, k: Container) {
    match k
    case Down => true
    case Loading(_) => true
    case Seeding(build, done) => done <= |build.seed| && forall i :: 0 <= i < done ==> build.seed[i].appId in table
    case Serving(_, apps, calls) =>
      && (forall key :: key in apps ==> key.1 in table && KeyOf(apps[key]) == key)
      && (forall n :: n in calls && calls[n].Written? ==>
            calls[n].app.appId in table && table[calls[n].app.appId] == calls[n].app
            && forall key :: key in apps ==> key.1 != calls[n].app.appId)
  }

  /** A container is waiting to acknowledge the row it wrote for this id. */
  predicate Owes(s: State, c: nat, call: nat, id: string) {
    c in s.containers && s.containers[c].Serving? && call in s.containers[c].calls
    && s.containers[c].calls[call].Written? && s.containers[c].calls[call].app.appId == id
  }

  ghost predicate Invariant(s: State) {
    && Keyed(s.table)
    && (forall c :: c in s.containers ==> Sound(s.table, s.containers[c]))
    // acknowledged creates: recorded as acknowledged, one per id
    && (forall i :: 0 <= i < |s.acked| ==> s.acked[i].appId in s.table && s.table[s.acked[i].appId] == s.acked[i])
    && (forall i, j :: 0 <= i < j < |s.acked| ==> s.acked[i].appId != s.acked[j].appId)
    // rows written and not yet acknowledged: one writer per id, and nobody acknowledged it
    && (forall c, call, id, d, other :: Owes(s, c, call, id) && Owes(s, d, other, id) ==> c == d && call == other)
    && (forall c, call, i :: 0 <= i < |s.acked| ==> !Owes(s, c, call, s.acked[i].appId))
  }

  /** Rows are never changed or removed. */
  lemma RowsStay(environment: Environment, s: State, step: Step)
    requires Keyed(s.table)
    ensures forall id :: id in s.table ==> id in Next(environment, s, step).table && Next(environment, s, step).table[id] == s.table[id]
  {
  }

  lemma SoundKept(table: Table, larger: Table, k: Container)
    requires Sound(table, k) && forall id :: id in table ==> id in larger && larger[id] == table[id]
    ensures Sound(larger, k)
  {
  }

  lemma StepSound(environment: Environment, s: State, step: Step)
    requires Invariant(s)
    ensures var t := Next(environment, s, step); forall c :: c in t.containers ==> Sound(t.table, t.containers[c])
  {
    var t := Next(environment, s, step);
    RowsStay(environment, s, step);
    forall c | c in t.containers ensures Sound(t.table, t.containers[c]) {
      if c in s.containers { SoundKept(s.table, t.table, s.containers[c]); }
      if c == step.c { OwnStepSound(environment, s, step); }
    }
  }

  lemma OwnStepSound(environment: Environment, s: State, step: Step)
    requires Invariant(s)
    ensures var t := Next(environment, s, step); step.c in t.containers ==> Sound(t.table, t.containers[step.c])
  {
    var c, t := step.c, Next(environment, s, step);
    if c in s.containers {
      RowsStay(environment, s, step);
      SoundKept(s.table, t.table, s.containers[c]);
    }
    if step.SeedOne? && t != s { SeededIsRecorded(environment, s, step); }
    if step.Complete? && t != s { OthersOweOtherIds(s, step); }
  }

  /** Completing the seed serves only what has a row by then. */
  lemma SeededIsRecorded(environment: Environment, s: State, step: Step)
    requires Invariant(s) && step.SeedOne? && Next(environment, s, step) != s
    ensures var build, t := At(s, step.c).build, Next(environment, s, step);
            At(s, step.c).Seeding? && At(s, step.c).done == |build.seed| ==>
              var registered := RegisterAll(build, build.seed);
              registered.Some? ==> forall key :: key in registered.value ==> key.1 in t.table
  {
    var t, build := Next(environment, s, step), At(s, step.c).build;
    if At(s, step.c).Seeding? && At(s, step.c).done == |build.seed| {
      var registered := RegisterAll(build, build.seed);
      if registered.Some? {
        forall key | key in registered.value ensures key.1 in t.table {
          var i :| 0 <= i < |build.seed| && build.seed[i] == registered.value[key];
        }
      }
    }
  }

  lemma OthersOweOtherIds(s: State, step: Step)
    requires Invariant(s) && step.Complete?
    ensures var k := At(s, step.c);
            k.Serving? && step.call in k.calls && k.calls[step.call].Written? ==>
              forall n :: n in k.calls && n != step.call && k.calls[n].Written? ==>
                k.calls[n].app.appId != k.calls[step.call].app.appId
  {
    var k := At(s, step.c);
    if k.Serving? && step.call in k.calls && k.calls[step.call].Written? {
      forall n | n in k.calls && n != step.call && k.calls[n].Written?
        ensures k.calls[n].app.appId != k.calls[step.call].app.appId
      {
        assert Owes(s, step.c, n, k.calls[n].app.appId) && Owes(s, step.c, step.call, k.calls[step.call].app.appId);
      }
    }
  }

  /** A step makes a container owe an acknowledgement only by inserting a row that was not there. */
  lemma NewDebt(environment: Environment, s: State, step: Step, c: nat, call: nat, id: string)
    requires Keyed(s.table) && Owes(Next(environment, s, step), c, call, id) && !Owes(s, c, call, id)
    ensures step == Insert(c, call) && id !in s.table && Next(environment, s, step).acked == s.acked
  {
  }

  lemma StepDebts(environment: Environment, s: State, step: Step)
    requires Invariant(s)
    ensures var t := Next(environment, s, step);
            forall c, call, id, d, other :: Owes(t, c, call, id) && Owes(t, d, other, id) ==> c == d && call == other
  {
    assert Keyed(s.table);
    hide Next, Invariant;
    var t := Next(environment, s, step);
    forall c, call, id, d, other | Owes(t, c, call, id) && Owes(t, d, other, id) ensures c == d && call == other {
      if !Owes(s, c, call, id) {
        NewDebt(environment, s, step, c, call, id);
        if Owes(s, d, other, id) { OwedIsRecorded(s, d, other, id); } else { NewDebt(environment, s, step, d, other, id); }
      } else if !Owes(s, d, other, id) {
        NewDebt(environment, s, step, d, other, id);
        OwedIsRecorded(s, c, call, id);
      } else {
        OneDebtor(s, c, call, id, d, other);
      }
    }
  }

  lemma OwedIsRecorded(s: State, c: nat, call: nat, id: string)
    requires Invariant(s) && Owes(s, c, call, id)
    ensures id in s.table && s.table[id] == s.containers[c].calls[call].app
    ensures forall key :: key in s.containers[c].apps ==> key.1 != id
  {
    assert Sound(s.table, s.containers[c]);
  }

  lemma OneDebtor(s: State, c: nat, call: nat, id: string, d: nat, other: nat)
    requires Invariant(s) && Owes(s, c, call, id) && Owes(s, d, other, id)
    ensures c == d && call == other
  {
  }

  /** A step acknowledges nothing, or the one row its own container had written. */
  lemma Acknowledges(environment: Environment, s: State, step: Step)
    requires Keyed(s.table)
    ensures var t := Next(environment, s, step);
            t.acked == s.acked
            || (step.Complete? && At(s, step.c).Serving? && step.call in At(s, step.c).calls
                && Owes(s, step.c, step.call, At(s, step.c).calls[step.call].app.appId)
                && t.acked == s.acked + [At(s, step.c).calls[step.call].app]
                && t.table == s.table
                && !Owes(t, step.c, step.call, At(s, step.c).calls[step.call].app.appId))
  {
  }

  lemma StepAcked(environment: Environment, s: State, step: Step)
    requires Invariant(s)
    ensures var t := Next(environment, s, step);
            && (forall i :: 0 <= i < |t.acked| ==> t.acked[i].appId in t.table && t.table[t.acked[i].appId] == t.acked[i])
            && (forall i, j :: 0 <= i < j < |t.acked| ==> t.acked[i].appId != t.acked[j].appId)
            && (forall c, call, i :: 0 <= i < |t.acked| ==> !Owes(t, c, call, t.acked[i].appId))
  {
    var t := Next(environment, s, step);
    RowsStay(environment, s, step);
    Acknowledges(environment, s, step);
    hide Next;
    if t.acked != s.acked {
      var app := At(s, step.c).calls[step.call].app;
      OwedIsRecorded(s, step.c, step.call, app.appId);
    }
    forall c, call, i | 0 <= i < |t.acked| ensures !Owes(t, c, call, t.acked[i].appId) {
      if Owes(t, c, call, t.acked[i].appId) {
        NotOwed(environment, s, step, c, call, i);
      }
    }
  }

  lemma NotOwed(environment: Environment, s: State, step: Step, c: nat, call: nat, i: nat)
    requires Invariant(s) && i < |Next(environment, s, step).acked|
    ensures !Owes(Next(environment, s, step), c, call, Next(environment, s, step).acked[i].appId)
  {
    var t := Next(environment, s, step);
    var id := t.acked[i].appId;
    Acknowledges(environment, s, step);
    hide Next, Invariant;
    if Owes(t, c, call, id) {
      if i < |s.acked| {
        AckedIsRecorded(s, i);
        if !Owes(s, c, call, id) { NewDebt(environment, s, step, c, call, id); }
      } else {
        OwedIsRecorded(s, step.c, step.call, id);
        if Owes(s, c, call, id) { OneDebtor(s, c, call, id, step.c, step.call); } else { NewDebt(environment, s, step, c, call, id); }
      }
    }
  }

  lemma AckedIsRecorded(s: State, i: nat)
    requires Invariant(s) && i < |s.acked|
    ensures s.acked[i].appId in s.table && s.table[s.acked[i].appId] == s.acked[i]
    ensures forall c, call :: !Owes(s, c, call, s.acked[i].appId)
  {
  }

  lemma StepInvariant(environment: Environment, s: State, step: Step)
    requires Invariant(s)
    ensures Invariant(Next(environment, s, step))
  {
    KeyedKept(environment, s, step);
    StepSound(environment, s, step);
    StepDebts(environment, s, step);
    StepAcked(environment, s, step);
    hide Next, Owes, Sound;
  }

  lemma {:induction false} RunInvariant(environment: Environment, steps: seq<Step>)
    ensures Invariant(Run(environment, steps))
  {
    if steps != [] {
      RunInvariant(environment, steps[..|steps| - 1]);
      StepInvariant(environment, Run(environment, steps[..|steps| - 1]), steps[|steps| - 1]);
      hide Next, Invariant;
    }
  }

  // --- the promises -----------------------------------------------------------

  /** In every reachable state, every application a container serves is a row of the table. */
  lemma ServedIsRecorded(environment: Environment, steps: seq<Step>, c: nat, key: Key)
    requires At(Run(environment, steps), c).Serving? && key in At(Run(environment, steps), c).apps
    ensures key.1 in Run(environment, steps).table
  {
    RunInvariant(environment, steps);
    assert Sound(Run(environment, steps).table, At(Run(environment, steps), c));
  }

  /** At most one `create` per id is ever acknowledged, over all containers and restarts. */
  lemma OneCreatePerId(environment: Environment, steps: seq<Step>, i: nat, j: nat)
    requires i < j < |Run(environment, steps).acked|
    ensures Run(environment, steps).acked[i].appId != Run(environment, steps).acked[j].appId
  {
    RunInvariant(environment, steps);
  }

  /** Once its row is written, a `create` is acknowledged by its next step: registering cannot refuse it. */
  lemma WrittenIsAcknowledged(environment: Environment, steps: seq<Step>, c: nat, call: nat, id: string)
    requires Owes(Run(environment, steps), c, call, id)
    ensures var s := Run(environment, steps); var app := s.containers[c].calls[call].app;
            var t := Next(environment, s, Complete(c, call));
            && t.acked == s.acked + [app]
            && At(t, c).Serving? && KeyOf(app) in At(t, c).apps && At(t, c).apps[KeyOf(app)] == app
  {
    RunInvariant(environment, steps);
    OwedIsRecorded(Run(environment, steps), c, call, id);
  }

  /**
   * A `create` whose insert commits and then fails is recorded all the same: nobody acknowledged it,
   * this container does not serve it, and asking again is refused as a conflict.
   */
  lemma LostCreateIsRecorded(environment: Environment, steps: seq<Step>, c: nat, call: nat, again: nat)
    requires At(Run(environment, steps), c).Serving? && call in At(Run(environment, steps), c).calls
    requires At(Run(environment, steps), c).calls[call].Writing? && again !in At(Run(environment, steps), c).calls
    requires At(Run(environment, steps), c).calls[call].app.appId !in Run(environment, steps).table
    ensures var s := Run(environment, steps); var app := At(s, c).calls[call].app; var t := Next(environment, s, Lose(c, call, true));
            && t.acked == s.acked && app.appId in t.table && t.table[app.appId] == app
            && At(t, c).Serving? && (forall key :: key in At(t, c).apps ==> key.1 != app.appId)
            && (At(t, c).build.parses(app) && app.environment == environment ==>
                  var u := Next(environment, Next(environment, t, Begin(c, again, app)), Insert(c, again));
                  At(u, c).Serving? && again in At(u, c).calls && At(u, c).calls[again] == Conflicted(app) && u.table == t.table)
  {
    RunInvariant(environment, steps);
    assert Sound(Run(environment, steps).table, At(Run(environment, steps), c));
    hide Run, Invariant;
  }

  /** Rows outlive any further steps. */
  lemma {:induction false} RowsOutlive(environment: Environment, steps: seq<Step>, more: seq<Step>, id: string)
    requires id in Run(environment, steps).table
    ensures id in Run(environment, steps + more).table
    ensures Run(environment, steps + more).table[id] == Run(environment, steps).table[id]
    decreases |more|
  {
    hide *;
    if more == [] {
      assert steps + more == steps;
    } else {
      var front, last := more[..|more| - 1], more[|more| - 1];
      RowsOutlive(environment, steps, front, id);
      assert steps + more == steps + front + [last];
      RunAppend(environment, steps + front, last);
      RowsStay(environment, Run(environment, steps + front), last);
    }
  }

  /**
   * An acknowledged `create` survives: after any crashes and restarts, a container that loads with
   * a schema the application still satisfies serves it, as it was created.
   */
  lemma AcknowledgedSurvives(environment: Environment, steps: seq<Step>, more: seq<Step>, i: nat, c: nat)
    requires i < |Run(environment, steps).acked|
    requires At(Run(environment, steps + more), c).Loading?
    requires At(Run(environment, steps + more), c).build.parses(Run(environment, steps).acked[i])
    ensures var app := Run(environment, steps).acked[i];
            var t := Next(environment, Run(environment, steps + more), FindRows(c));
            At(t, c).Serving? && KeyOf(app) in At(t, c).apps && At(t, c).apps[KeyOf(app)] == app
  {
    var app := Run(environment, steps).acked[i];
    RunInvariant(environment, steps);
    AckedIsRecorded(Run(environment, steps), i);
    RowsOutlive(environment, steps, more, app.appId);
    hide Run, Invariant;
    var s := Run(environment, steps + more);
    assert app.appId in s.table;
    assert |s.table| != 0;
  }

  lemma RunAppend(environment: Environment, steps: seq<Step>, step: Step)
    ensures Run(environment, steps + [step]) == Next(environment, Run(environment, steps), step)
  {
    assert (steps + [step])[..|steps|] == steps;
  }

  lemma BothFindNothing(environment: Environment, first: Build, second: Build)
    requires |first.seed| > 0 && |second.seed| > 0
    ensures var s := Run(environment, [Start(0, first), Start(1, second)] + [FindRows(0), FindRows(1)]);
            s == State(map[], map[0 := Seeding(first, 0), 1 := Seeding(second, 0)], [])
  {
    assert Run(environment, []) == State(map[], map[], []);
    hide Run;
    RunAppend(environment, [], Start(0, first));
    RunAppend(environment, [Start(0, first)], Start(1, second));
    assert [] + [Start(0, first)] == [Start(0, first)];
    assert [Start(0, first)] + [Start(1, second)] == [Start(0, first), Start(1, second)];
    var start := [Start(0, first), Start(1, second)];
    assert Run(environment, start) == State(map[], map[0 := Loading(first), 1 := Loading(second)], []);
    RunAppend(environment, start, FindRows(0));
    RunAppend(environment, start + [FindRows(0)], FindRows(1));
    assert start + [FindRows(0)] + [FindRows(1)] == start + [FindRows(0), FindRows(1)];
  }
}
