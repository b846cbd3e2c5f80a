/** Whether what a container serves under an id is the row recorded under it. */
module AppCatalogDefinitions {
  import opened AppCatalogs
  import opened AppCatalogRuns

  ghost predicate ServesRowsAt(s: State, c: nat) {
    At(s, c).Serving? ==> forall key :: key in At(s, c).apps ==> key.1 in s.table && s.table[key.1] == At(s, c).apps[key]
  }

  ghost predicate ServesRows(s: State) { forall c :: ServesRowsAt(s, c) }

  // --- a container that loaded rows -------------------------------------------

  /** What this container serves, later served by it too, as the same. */
  ghost predicate StillServes(s: State, t: State, c: nat) {
    At(s, c).Serving? && At(t, c).Serving? && forall key :: key in At(s, c).apps ==> key in At(t, c).apps && At(t, c).apps[key] == At(s, c).apps[key]
  }

  lemma CompletionServesRow(environment: Environment, s: State, c: nat, call: nat)
    requires Invariant(s) && At(s, c).Serving? && ServesRowsAt(s, c)
    ensures var t := Next(environment, s, Complete(c, call)); t.table == s.table && ServesRowsAt(t, c) && StillServes(s, t, c)
  {
    assert Sound(s.table, At(s, c));
    hide Invariant, RegisterAll, Parsed;
  }

  lemma OwnStepKeepsApps(environment: Environment, s: State, step: Step)
    requires Keyed(s.table) && At(s, step.c).Serving? && step != Crash(step.c) && !step.Complete?
    ensures At(Next(environment, s, step), step.c).Serving? && At(Next(environment, s, step), step.c).apps == At(s, step.c).apps
  {
    hide RegisterAll, Parsed, Inserted;
  }

  /** Once what a container serves are rows, only a crash ends that. */
  lemma KeepsServingRows(environment: Environment, s: State, step: Step, c: nat)
    requires Invariant(s) && At(s, c).Serving? && ServesRowsAt(s, c) && step != Crash(c)
    ensures var t := Next(environment, s, step); ServesRowsAt(t, c) && StillServes(s, t, c)
  {
    assert Keyed(s.table);
    RowsStay(environment, s, step);
    if step.c == c {
      if step.Complete? { CompletionServesRow(environment, s, c, step.call); } else { OwnStepKeepsApps(environment, s, step); }
    } else {
      OthersUnchanged(environment, s, step, c);
    }
    hide Next, Invariant;
  }

  /**
   * A container that found rows, or had nothing to seed, serves every row that parses and nothing but
   * rows, whatever the others do, for as long as it lives.
   */
  lemma {:induction false} LoadedServesRows(environment: Environment, steps: seq<Step>, more: seq<Step>, c: nat)
    requires var s := Run(environment, steps); At(s, c).Loading? && (|s.table| > 0 || At(s, c).build.seed == [])
    requires Crash(c) !in more
    ensures var s, t := Run(environment, steps), Run(environment, steps + [FindRows(c)] + more);
            && At(t, c).Serving? && ServesRowsAt(t, c)
            && forall id :: id in s.table && At(s, c).build.parses(s.table[id]) ==>
                 KeyOf(s.table[id]) in At(t, c).apps && At(t, c).apps[KeyOf(s.table[id])] == s.table[id]
    decreases |more|
  {
    if more == [] {
      RunAppend(environment, steps, FindRows(c));
      assert steps + [FindRows(c)] + [] == steps + [FindRows(c)];
      hide Run, Parsed;
    } else {
      var front, last := more[..|more| - 1], more[|more| - 1];
      LoadedServesRows(environment, steps, front, c);
      assert steps + [FindRows(c)] + more == steps + [FindRows(c)] + front + [last];
      RunAppend(environment, steps + [FindRows(c)] + front, last);
      RunInvariant(environment, steps + [FindRows(c)] + front);
      hide Run, Next, Invariant, ServesRowsAt, Parsed;
      KeepsServingRows(environment, Run(environment, steps + [FindRows(c)] + front), last, c);
    }
  }

  // --- when every run serves rows ---------------------------------------------

  /** No seed application of this id has another definition. */
  ghost predicate Agrees(seeds: set<App>, app: App) { forall x :: x in seeds && x.appId == app.appId ==> x == app }

  ghost predicate OneEach(seeds: set<App>) { forall x :: x in seeds ==> Agrees(seeds, x) }

  function SeedsOf(steps: seq<Step>): (seeds: set<App>)
    ensures forall i :: 0 <= i < |steps| && steps[i].Start? ==> forall x :: x in steps[i].build.seed ==> x in seeds
    ensures forall x :: x in seeds ==> exists i :: 0 <= i < |steps| && steps[i].Start? && x in steps[i].build.seed
  {
    if steps == [] then {}
    else
      var last, rest := steps[|steps| - 1], SeedsOf(steps[..|steps| - 1]);
      if last.Start? then rest + set x | x in last.build.seed else rest
  }

  ghost predicate Loads(build: Build) { RegisterAll(build, build.seed).Some? }

  /** The first application of the seed under its id: seeding an empty table alone, the one that gets the row. */
  ghost predicate FirstOfId(seed: seq<App>, i: int) {
    0 <= i < |seed| && forall k :: 0 <= k < i ==> seed[k].appId != seed[i].appId
  }

  /** What this build could come to serve is among the seeds, and what it could write agrees with them. */
  ghost predicate Brings(seeds: set<App>, build: Build) {
    && (Loads(build) ==> forall x :: x in build.seed ==> x in seeds)
    && forall i :: FirstOfId(build.seed, i) ==> Agrees(seeds, build.seed[i])
  }

  /** Started with seeds that give one definition per id, which no create reuses for another. */
  ghost predicate OneDefinition(steps: seq<Step>, seeds: set<App>) {
    && OneEach(seeds)
    && (forall i :: 0 <= i < |steps| && steps[i].Start? ==> forall x :: x in steps[i].build.seed ==> x in seeds)
    && (forall i :: 0 <= i < |steps| && steps[i].Begin? ==> Agrees(seeds, steps[i].app))
  }

  /** The seeds' definition of its id, or too late: the id has its row. */
  ghost predicate AgreesOrLate(seeds: set<App>, table: Table, app: App) { Agrees(seeds, app) || app.appId in table }

  /** What a container knows has the seeds' definitions, or cannot become a row. */
  ghost predicate Faithful(seeds: set<App>, table: Table, k: Container) {
    match k
    case Down => true
    case Loading(build) => Brings(seeds, build)
    case Seeding(build, _) => Brings(seeds, build)
    case Serving(_, _, calls) => forall n :: n in calls ==> AgreesOrLate(seeds, table, calls[n].app)
  }

  ghost predicate Agreed(seeds: set<App>, s: State) {
    && (forall id :: id in s.table ==> Agrees(seeds, s.table[id]))
    && (forall c :: Faithful(seeds, s.table, At(s, c)))
    && ServesRows(s)
  }

  /** The step brings in no seed that disagrees, and no create that disagrees and could still become a row. */
  ghost predicate StepAgrees(environment: Environment, seeds: set<App>, s: State, step: Step) {
    && (step.Start? ==> Brings(seeds, step.build))
    && (step.Begin? && At(s, step.c).Serving? && At(s, step.c).build.parses(step.app) && step.app.environment == environment ==>
          AgreesOrLate(seeds, s.table, step.app))
  }

  ghost predicate StepsAgree(environment: Environment, seeds: set<App>, steps: seq<Step>) {
    forall i :: 0 <= i < |steps| ==> StepAgrees(environment, seeds, Run(environment, steps[..i]), steps[i])
  }

  lemma InsertedAgrees(seeds: set<App>, table: Table, app: App)
    requires AgreesOrLate(seeds, table, app) && forall id :: id in table ==> Agrees(seeds, table[id])
    ensures forall id :: id in Inserted(table, app) ==> Agrees(seeds, Inserted(table, app)[id])
  {
    hide Agrees;
  }

  lemma TableAgrees(environment: Environment, seeds: set<App>, s: State, step: Step)
    requires Invariant(s) && Agreed(seeds, s)
    ensures var t := Next(environment, s, step); forall id :: id in t.table ==> Agrees(seeds, t.table[id])
  {
    assert Keyed(s.table) && Faithful(seeds, s.table, At(s, step.c));
    if (step.Insert? || step.Lose?) && At(s, step.c).Serving? && step.call in At(s, step.c).calls {
      InsertedAgrees(seeds, s.table, At(s, step.c).calls[step.call].app);
    }
    if step.SeedOne? && At(s, step.c).Seeding? && At(s, step.c).done < |At(s, step.c).build.seed| {
      assert Sound(s.table, At(s, step.c));
      SeedAgreesOrLate(seeds, s.table, At(s, step.c).build, At(s, step.c).done);
      InsertedAgrees(seeds, s.table, At(s, step.c).build.seed[At(s, step.c).done]);
    }
    hide Agrees, AgreesOrLate, ServesRows, Invariant, RegisterAll, Inserted, Faithful, Brings;
  }

  /** A seed application that is not the first of its id comes too late to become a row. */
  lemma SeedAgreesOrLate(seeds: set<App>, table: Table, build: Build, done: nat)
    requires Brings(seeds, build) && done < |build.seed| && forall i :: 0 <= i < done ==> build.seed[i].appId in table
    ensures AgreesOrLate(seeds, table, build.seed[done])
  {
    hide Agrees, Loads;
    if FirstOfId(build.seed, done) { assert Agrees(seeds, build.seed[done]); }
  }

  lemma OthersUnchanged(environment: Environment, s: State, step: Step, c: nat)
    requires Keyed(s.table) && c != step.c
    ensures At(Next(environment, s, step), c) == At(s, c)
  {
  }

  lemma FaithfulLater(seeds: set<App>, table: Table, larger: Table, k: Container)
    requires Faithful(seeds, table, k) && forall id :: id in table ==> id in larger
    ensures Faithful(seeds, larger, k)
  {
    hide Agrees;
  }

  lemma OwnFaithful(environment: Environment, seeds: set<App>, s: State, step: Step)
    requires Keyed(s.table) && StepAgrees(environment, seeds, s, step) && Faithful(seeds, s.table, At(s, step.c))
    ensures Faithful(seeds, s.table, At(Next(environment, s, step), step.c))
  {
    hide AgreesOrLate, RegisterAll, Parsed, Inserted, Brings;
  }

  /** A container that has just seeded serves its seed, whose definitions the rows have. */
  lemma SeededServesRows(environment: Environment, seeds: set<App>, s: State, step: Step)
    requires Invariant(s) && Agreed(seeds, s)
    requires step.SeedOne? && At(s, step.c).Seeding? && At(s, step.c).done == |At(s, step.c).build.seed|
    ensures ServesRowsAt(Next(environment, s, step), step.c)
  {
    var t, build := Next(environment, s, step), At(s, step.c).build;
    assert Sound(s.table, At(s, step.c)) && Faithful(seeds, s.table, At(s, step.c));
    hide Invariant, ServesRows;
    var registered := RegisterAll(build, build.seed);
    if registered.Some? {
      forall key | key in registered.value ensures key.1 in t.table && t.table[key.1] == registered.value[key] {
        var i :| 0 <= i < |build.seed| && build.seed[i] == registered.value[key];
        assert Loads(build) && build.seed[i] in seeds && Agrees(seeds, s.table[key.1]);
      }
    }
  }

  lemma OwnServesRows(environment: Environment, seeds: set<App>, s: State, step: Step)
    requires Invariant(s) && Agreed(seeds, s)
    ensures ServesRowsAt(Next(environment, s, step), step.c)
  {
    var c := step.c;
    assert ServesRowsAt(s, c) && Keyed(s.table);
    if step.SeedOne? && At(s, c).Seeding? && At(s, c).done == |At(s, c).build.seed| {
      SeededServesRows(environment, seeds, s, step);
    } else if At(s, c).Serving? && step != Crash(c) {
      KeepsServingRows(environment, s, step, c);
    } else if !At(s, c).Serving? {
      assert Sound(s.table, At(s, c));
      hide Invariant, Agreed, Seeded, RegisterAll, Parsed;
    }
  }

  lemma StepKeepsAgreed(environment: Environment, seeds: set<App>, s: State, step: Step)
    requires Invariant(s) && Agreed(seeds, s) && StepAgrees(environment, seeds, s, step)
    ensures Agreed(seeds, Next(environment, s, step))
  {
    assert Keyed(s.table);
    var t := Next(environment, s, step);
    TableAgrees(environment, seeds, s, step);
    RowsStay(environment, s, step);
    assert Faithful(seeds, s.table, At(s, step.c));
    OwnFaithful(environment, seeds, s, step);
    OwnServesRows(environment, seeds, s, step);
    forall c ensures Faithful(seeds, t.table, At(t, c)) && ServesRowsAt(t, c) {
      assert Faithful(seeds, s.table, At(s, c)) && ServesRowsAt(s, c);
      if c != step.c { OthersUnchanged(environment, s, step, c); }
      FaithfulLater(seeds, s.table, t.table, At(t, c));
      hide Next, Faithful, Invariant;
    }
    hide Next, Faithful, ServesRowsAt, Invariant;
  }

  lemma {:induction false} RunAgreed(environment: Environment, steps: seq<Step>, seeds: set<App>)
    requires StepsAgree(environment, seeds, steps)
    ensures Agreed(seeds, Run(environment, steps))
  {
    if steps != [] {
      var n := |steps| - 1;
      var front := steps[..n];
      assert StepsAgree(environment, seeds, front) by {
        hide Run, StepAgrees;
        forall i | 0 <= i < |front| ensures StepAgrees(environment, seeds, Run(environment, front[..i]), front[i]) {
          assert front[..i] == steps[..i];
        }
      }
      RunAgreed(environment, front, seeds);
      RunInvariant(environment, front);
      hide Next, Invariant, Agreed, StepAgrees;
      assert StepAgrees(environment, seeds, Run(environment, steps[..n]), steps[n]);
      StepKeepsAgreed(environment, seeds, Run(environment, front), steps[n]);
    }
  }

  /**
   * Over every run whose seeds give one definition per id, and whose creates reuse no seeded id for
   * another, every container serves exactly what is recorded.
   */
  lemma ServedIsTheRow(environment: Environment, steps: seq<Step>)
    requires OneDefinition(steps, SeedsOf(steps))
    ensures ServesRows(Run(environment, steps))
  {
    hide Run, Loads;
    RunAgreed(environment, steps, SeedsOf(steps));
  }

  // --- and when some run does not ---------------------------------------------

  function Times(step: Step, n: nat): seq<Step> { if n == 0 then [] else Times(step, n - 1) + [step] }

  lemma TimesStep(steps: seq<Step>, step: Step, n: nat)
    ensures steps + Times(step, n) == if n == 0 then steps else steps + Times(step, n - 1) + [step]
  {
  }

  lemma OneSeed(environment: Environment, s: State, c: nat, build: Build, n: nat)
    requires Keyed(s.table) && At(s, c) == Seeding(build, n) && n <= |build.seed|
    ensures var t := Next(environment, s, SeedOne(c));
            && (n < |build.seed| ==> At(t, c) == Seeding(build, n + 1) && t.table == Inserted(s.table, build.seed[n]))
            && (n == |build.seed| && RegisterAll(build, build.seed).Some? ==>
                  At(t, c) == Serving(build, RegisterAll(build, build.seed).value, map[]))
            && forall d :: d != c ==> At(t, d) == At(s, d)
  {
    hide RegisterAll;
  }

  /** Writing rows one by one, a container is at its n-th application with the rows before it in, and no other has moved. */
  lemma {:induction false} SeedSome(environment: Environment, steps: seq<Step>, c: nat, build: Build, n: nat)
    requires At(Run(environment, steps), c) == Seeding(build, 0) && n <= |build.seed|
    ensures At(Run(environment, steps + Times(SeedOne(c), n)), c) == Seeding(build, n)
    ensures Run(environment, steps + Times(SeedOne(c), n)).table == Seeded(Run(environment, steps).table, build.seed, n)
    ensures forall d :: d != c ==> At(Run(environment, steps + Times(SeedOne(c), n)), d) == At(Run(environment, steps), d)
  {
    hide *;
    TimesStep(steps, SeedOne(c), n);
    SeededOne(Run(environment, steps).table, build.seed, n);
    if n > 0 {
      SeedSome(environment, steps, c, build, n - 1);
      RunAppend(environment, steps + Times(SeedOne(c), n - 1), SeedOne(c));
      OneSeed(environment, Run(environment, steps + Times(SeedOne(c), n - 1)), c, build, n - 1);
    }
  }

  lemma SeededOne(table: Table, seed: seq<App>, n: nat)
    requires n <= |seed|
    ensures Seeded(table, seed, n) == if n == 0 then table else Inserted(Seeded(table, seed, n - 1), seed[n - 1])
  {
  }

  /** All of it written, it serves its seed. */
  lemma SeedAll(environment: Environment, steps: seq<Step>, c: nat, build: Build)
    requires At(Run(environment, steps), c) == Seeding(build, 0) && RegisterAll(build, build.seed).Some?
    ensures var t := Run(environment, steps + Times(SeedOne(c), |build.seed| + 1));
            && At(t, c) == Serving(build, RegisterAll(build, build.seed).value, map[])
            && forall d :: d != c ==> At(t, d) == At(Run(environment, steps), d)
  {
    hide *;
    var n := |build.seed|;
    TimesStep(steps, SeedOne(c), n + 1);
    SeedSome(environment, steps, c, build, n);
    RunAppend(environment, steps + Times(SeedOne(c), n), SeedOne(c));
    OneSeed(environment, Run(environment, steps + Times(SeedOne(c), n)), c, build, n);
  }

  function BothFind(first: Build, second: Build): seq<Step> {
    [Start(0, first), Start(1, second)] + [FindRows(0), FindRows(1)]
  }

  /** Both containers find the table empty, then each writes and serves its own seed. */
  function SeedingRace(first: Build, second: Build): seq<Step> {
    BothFind(first, second) + Times(SeedOne(0), |first.seed| + 1) + Times(SeedOne(1), |second.seed| + 1)
  }

  lemma BothServeTheirSeeds(environment: Environment, first: Build, second: Build)
    requires |first.seed| > 0 && |second.seed| > 0
    requires RegisterAll(first, first.seed).Some? && RegisterAll(second, second.seed).Some?
    ensures var s := Run(environment, SeedingRace(first, second));
            && At(s, 0) == Serving(first, RegisterAll(first, first.seed).value, map[])
            && At(s, 1) == Serving(second, RegisterAll(second, second.seed).value, map[])
  {
    hide Run, RegisterAll, Times;
    BothFindNothing(environment, first, second);
    SeedAll(environment, BothFind(first, second), 0, first);
    SeedAll(environment, BothFind(first, second) + Times(SeedOne(0), |first.seed| + 1), 1, second);
  }

  /** Any disagreement between two seeds that load yields a run in which a container serves what is not recorded. */
  lemma SeedingRaceServesAnother(environment: Environment, first: Build, second: Build, x: App, y: App)
    requires x in first.seed && y in second.seed && x.appId == y.appId && x != y
    requires RegisterAll(first, first.seed).Some? && RegisterAll(second, second.seed).Some?
    ensures !ServesRows(Run(environment, SeedingRace(first, second)))
  {
    BothServeTheirSeeds(environment, first, second);
    hide Run, SeedingRace;
    var s := Run(environment, SeedingRace(first, second));
    assert KeyOf(x) in At(s, 0).apps && At(s, 0).apps[KeyOf(x)] == x;
    assert KeyOf(y) in At(s, 1).apps && At(s, 1).apps[KeyOf(y)] == y;
    hide RegisterAll;
    assert !ServesRowsAt(s, 0) || !ServesRowsAt(s, 1);
  }

  /** Alone on an empty table, the first application of an id gets its row. */
  lemma FirstGetsRow(seed: seq<App>, i: nat)
    requires FirstOfId(seed, i)
    ensures seed[i].appId in Seeded(map[], seed, i + 1) && Seeded(map[], seed, i + 1)[seed[i].appId] == seed[i]
  {
    OnlySeeded(seed, i);
  }

  lemma {:induction false} OnlySeeded(seed: seq<App>, n: nat)
    requires n <= |seed|
    ensures forall id :: id in Seeded(map[], seed, n) ==> exists k :: 0 <= k < n && seed[k].appId == id
  {
    if n > 0 { OnlySeeded(seed, n - 1); }
  }

  /** A seeder whose seeds come too late serves another definition than the row. */
  lemma SeedsTooLate(environment: Environment, steps: seq<Step>, seeder: Build, y: App, z: App)
    requires var s := Run(environment, steps); z.appId in s.table && s.table[z.appId] == z && At(s, 1) == Seeding(seeder, 0)
    requires y in seeder.seed && Loads(seeder) && y.appId == z.appId && y != z
    ensures !ServesRows(Run(environment, steps + Times(SeedOne(1), |seeder.seed| + 1)))
  {
    hide Run, Times;
    SeedAll(environment, steps, 1, seeder);
    RowsOutlive(environment, steps, Times(SeedOne(1), |seeder.seed| + 1), z.appId);
    var s := Run(environment, steps + Times(SeedOne(1), |seeder.seed| + 1));
    assert KeyOf(y) in At(s, 1).apps && At(s, 1).apps[KeyOf(y)] == y;
    hide RegisterAll;
    assert !ServesRowsAt(s, 1);
  }

  /** Both containers find the table empty; one writes so many rows, and need never serve; the other seeds and serves. */
  function PartSeededRace(writer: Build, seeder: Build, n: nat): seq<Step> {
    BothFind(writer, seeder) + Times(SeedOne(0), n) + Times(SeedOne(1), |seeder.seed| + 1)
  }

  /** A build need not load to be in the way: its rows are written before its seed is refused. */
  lemma PartSeedingServesAnother(environment: Environment, writer: Build, seeder: Build, i: nat, y: App)
    requires FirstOfId(writer.seed, i) && Loads(seeder)
    requires y in seeder.seed && y.appId == writer.seed[i].appId && y != writer.seed[i]
    ensures !ServesRows(Run(environment, PartSeededRace(writer, seeder, i + 1)))
  {
    var found := BothFind(writer, seeder);
    hide Run, Times, BothFind, Loads;
    FirstGetsRow(writer.seed, i);
    BothFindNothing(environment, writer, seeder);
    assert found == [Start(0, writer), Start(1, seeder)] + [FindRows(0), FindRows(1)] by { BothFindIs(writer, seeder); }
    hide Seeded;
    SeedSome(environment, found, 0, writer, i + 1);
    SeedsTooLate(environment, found + Times(SeedOne(0), i + 1), seeder, y, writer.seed[i]);
  }

  lemma BothFindIs(first: Build, second: Build)
    ensures BothFind(first, second) == [Start(0, first), Start(1, second)] + [FindRows(0), FindRows(1)]
  {
  }

  /** A container with nothing to seed creates an application while another, having found no rows, has yet to seed. */
  function CreateRace(creator: Build, seeder: Build, z: App): seq<Step> {
    CreatedFirst(creator, seeder, z) + Times(SeedOne(1), |seeder.seed| + 1)
  }

  function CreatedFirst(creator: Build, seeder: Build, z: App): seq<Step> {
    BothLook(creator, seeder) + [Begin(0, 0, z)] + [Insert(0, 0)]
  }

  function BothLook(creator: Build, seeder: Build): seq<Step> {
    [Start(0, creator)] + [Start(1, seeder)] + [FindRows(0)] + [FindRows(1)]
  }

  lemma BothLooked(environment: Environment, creator: Build, seeder: Build)
    requires creator.seed == [] && seeder.seed != []
    ensures Run(environment, BothLook(creator, seeder))
            == State(map[], map[0 := Serving(creator, map[], map[]), 1 := Seeding(seeder, 0)], [])
  {
    var a, b := [Start(0, creator)], [Start(0, creator)] + [Start(1, seeder)];
    hide *;
    BothStarted(environment, creator, seeder);
    RunAppend(environment, b, FindRows(0));
    RunAppend(environment, b + [FindRows(0)], FindRows(1));
    BothLookNext(environment, creator, seeder);
    BothLookIs(creator, seeder);
  }

  lemma BothLookIs(creator: Build, seeder: Build)
    ensures BothLook(creator, seeder) == [Start(0, creator)] + [Start(1, seeder)] + [FindRows(0)] + [FindRows(1)]
  {
  }

  lemma BothStarted(environment: Environment, creator: Build, seeder: Build)
    ensures Run(environment, [Start(0, creator)] + [Start(1, seeder)]) == State(map[], map[0 := Loading(creator), 1 := Loading(seeder)], [])
  {
    assert Run(environment, []) == State(map[], map[], []) && [] + [Start(0, creator)] == [Start(0, creator)];
    hide Run;
    RunAppend(environment, [], Start(0, creator));
    RunAppend(environment, [Start(0, creator)], Start(1, seeder));
  }

  lemma BothLookNext(environment: Environment, creator: Build, seeder: Build)
    requires creator.seed == [] && seeder.seed != []
    ensures var s := State(map[], map[0 := Loading(creator), 1 := Loading(seeder)], []);
            var t := State(map[], map[0 := Serving(creator, map[], map[]), 1 := Loading(seeder)], []);
            Keyed(s.table) && Next(environment, s, FindRows(0)) == t
            && Next(environment, t, FindRows(1)) == State(map[], map[0 := Serving(creator, map[], map[]), 1 := Seeding(seeder, 0)], [])
  {
    var served := Serving(creator, map[], map[]);
    TwoContainers(Loading(creator), Loading(seeder), served);
    TwoContainers(served, Loading(seeder), Seeding(seeder, 0));
    hide *;
    LooksAtNothing(environment, State(map[], map[0 := Loading(creator), 1 := Loading(seeder)], []), 0);
    LooksAtNothing(environment, State(map[], map[0 := served, 1 := Loading(seeder)], []), 1);
  }

  lemma TwoContainers(a: Container, b: Container, to: Container)
    ensures var s := State(map[], map[0 := a, 1 := b], []);
            && At(s, 0) == a && At(s, 1) == b
            && Put(s, 0, to) == State(map[], map[0 := to, 1 := b], []) && Put(s, 1, to) == State(map[], map[0 := a, 1 := to], [])
  {
    assert map[0 := a, 1 := b][0 := to] == map[0 := to, 1 := b] && map[0 := a, 1 := b][1 := to] == map[0 := a, 1 := to];
  }

  lemma LooksAtNothing(environment: Environment, s: State, c: nat)
    requires s.table == map[] && At(s, c).Loading?
    ensures Keyed(s.table)
    ensures var build := At(s, c).build;
            Next(environment, s, FindRows(c)) == Put(s, c, if build.seed == [] then Serving(build, map[], map[]) else Seeding(build, 0))
  {
    assert Parsed(map[], At(s, c).build) == map[];
    hide Parsed;
  }

  lemma CreatedFirstState(environment: Environment, creator: Build, seeder: Build, z: App)
    requires creator.seed == [] && seeder.seed != [] && creator.parses(z) && z.environment == environment
    ensures var s := Run(environment, CreatedFirst(creator, seeder, z));
            s.table == map[z.appId := z] && At(s, 1) == Seeding(seeder, 0)
  {
    hide Run, BothLook;
    BothLooked(environment, creator, seeder);
    RunAppend(environment, BothLook(creator, seeder), Begin(0, 0, z));
    RunAppend(environment, BothLook(creator, seeder) + [Begin(0, 0, z)], Insert(0, 0));
    assert Run(environment, BothLook(creator, seeder) + [Begin(0, 0, z)])
           == State(map[], map[0 := Serving(creator, map[], map[0 := Writing(z)]), 1 := Seeding(seeder, 0)], []);
  }

  /** So does a create that takes a seeded id for another definition. */
  lemma CreateRaceServesAnother(environment: Environment, creator: Build, seeder: Build, y: App, z: App)
    requires creator.seed == [] && creator.parses(z) && z.environment == environment
    requires y in seeder.seed && RegisterAll(seeder, seeder.seed).Some? && y.appId == z.appId && y != z
    ensures !ServesRows(Run(environment, CreateRace(creator, seeder, z)))
  {
    CreatedFirstState(environment, creator, seeder, z);
    SeedAll(environment, CreatedFirst(creator, seeder, z), 1, seeder);
    RowsOutlive(environment, CreatedFirst(creator, seeder, z), Times(SeedOne(1), |seeder.seed| + 1), z.appId);
    var s := Run(environment, CreateRace(creator, seeder, z));
    hide Run, CreatedFirst, Times;
    assert s.table[z.appId] == z;
    assert KeyOf(y) in At(s, 1).apps && At(s, 1).apps[KeyOf(y)] == y;
    hide RegisterAll;
    assert !ServesRowsAt(s, 1);
  }
}
