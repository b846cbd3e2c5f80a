/** Which builds and creates let every run serve what is recorded, and a run for each that do not. */
module AppCatalogAgreement {
  import opened Text
  import opened AppCatalogs
  import opened AppCatalogRuns
  import opened AppCatalogDefinitions

  // --- runs of given builds and creates ---------------------------------------

  /** The step starts one of these builds, or creates one of these applications, or is some other. */
  ghost predicate From(builds: seq<Build>, creates: iset<App>, step: Step) {
    && (step.Start? ==> exists j :: 0 <= j < |builds| && builds[j] == step.build)
    && (step.Begin? ==> step.app in creates)
  }

  ghost predicate OnlyFrom(builds: seq<Build>, creates: iset<App>, steps: seq<Step>) {
    forall step :: step in steps ==> From(builds, creates, step)
  }

  function SeedsIn(builds: seq<Build>): (seeds: set<App>)
    ensures forall x :: x in seeds <==> exists j :: 0 <= j < |builds| && x in builds[j].seed
  {
    set j, x | 0 <= j < |builds| && x in builds[j].seed :: x
  }

  /** The seeds that load, which alone are ever served. */
  ghost function ServedSeeds(builds: seq<Build>): (seeds: set<App>)
    ensures forall x :: x in seeds <==> exists j :: 0 <= j < |builds| && Loads(builds[j]) && x in builds[j].seed
  {
    set j, x | 0 <= j < |builds| && Loads(builds[j]) && x in builds[j].seed :: x
  }

  /** Whatever a seed, loading or not, would write as the first of its id agrees with the seeds that load. */
  ghost predicate SeedsAgree(builds: seq<Build>) {
    forall j, i :: 0 <= j < |builds| && FirstOfId(builds[j].seed, i) ==> Agrees(ServedSeeds(builds), builds[j].seed[i])
  }

  /** This build would write a row of another id into an empty table: its seed's first, or what it may create. */
  ghost predicate OpensWithout(environment: Environment, creates: iset<App>, build: Build, id: string) {
    if build.seed != [] then build.seed[0].appId != id
    else exists w :: w in creates && build.parses(w) && w.environment == environment && w.appId != id
  }

  /** The first row ever written may be of another id. */
  ghost predicate CanOpenWithout(environment: Environment, builds: seq<Build>, creates: iset<App>, id: string) {
    exists k :: 0 <= k < |builds| && OpensWithout(environment, creates, builds[k], id)
  }

  /** A container of this build may come to create this application while its id has no row. */
  ghost predicate CanCreateFirst(environment: Environment, builds: seq<Build>, creates: iset<App>, build: Build, z: App) {
    build.parses(z) && z.environment == environment
    && (build.seed == [] || CanOpenWithout(environment, builds, creates, z.appId))
  }

  /** Every create that can come first gives an id of a seed that loads that seed's definition. */
  ghost predicate Harmless(environment: Environment, builds: seq<Build>, creates: iset<App>) {
    forall j, z :: 0 <= j < |builds| && z in creates && CanCreateFirst(environment, builds, creates, builds[j], z) ==>
      Agrees(ServedSeeds(builds), z)
  }

  // --- what the first row is --------------------------------------------------

  /** Where each container's build and calls come from; and one that has a seed serves only once there are rows. */
  ghost predicate Known(environment: Environment, builds: seq<Build>, creates: iset<App>, table: Table, k: Container) {
    match k
    case Down => true
    case Loading(build) => build in builds
    case Seeding(build, _) => build in builds && build.seed != []
    case Serving(build, _, calls) =>
      && build in builds && (build.seed != [] ==> table != map[])
      && forall n :: n in calls ==> calls[n].app in creates && build.parses(calls[n].app) && calls[n].app.environment == environment
  }

  /** An id no first row can do without is recorded as soon as anything is. */
  ghost predicate Opened(environment: Environment, builds: seq<Build>, creates: iset<App>, table: Table) {
    table != map[] ==> forall id :: !CanOpenWithout(environment, builds, creates, id) ==> id in table
  }

  ghost predicate Traced(environment: Environment, builds: seq<Build>, creates: iset<App>, s: State) {
    Opened(environment, builds, creates, s.table) && forall c :: Known(environment, builds, creates, s.table, At(s, c))
  }

  lemma KnownLater(environment: Environment, builds: seq<Build>, creates: iset<App>, table: Table, larger: Table, k: Container)
    requires Known(environment, builds, creates, table, k) && forall id :: id in table ==> id in larger
    ensures Known(environment, builds, creates, larger, k)
  {
    if table != map[] {
      var id :| id in table;
    }
  }

  lemma OwnKnown(environment: Environment, builds: seq<Build>, creates: iset<App>, s: State, step: Step)
    requires Invariant(s) && From(builds, creates, step) && Known(environment, builds, creates, s.table, At(s, step.c))
    ensures var t := Next(environment, s, step); Known(environment, builds, creates, t.table, At(t, step.c))
  {
    assert Keyed(s.table) && Sound(s.table, At(s, step.c));
    hide Invariant, RegisterAll, Parsed;
  }

  lemma Opening(environment: Environment, builds: seq<Build>, creates: iset<App>, build: Build, app: App)
    requires build in builds
    requires if build.seed != [] then app == build.seed[0]
             else app in creates && build.parses(app) && app.environment == environment
    ensures forall id :: !CanOpenWithout(environment, builds, creates, id) ==> id == app.appId
  {
    forall id | !CanOpenWithout(environment, builds, creates, id) ensures id == app.appId {
      assert !OpensWithout(environment, creates, build, id);
    }
  }

  lemma TableOpened(environment: Environment, builds: seq<Build>, creates: iset<App>, s: State, step: Step)
    requires Invariant(s) && Traced(environment, builds, creates, s)
    ensures Opened(environment, builds, creates, Next(environment, s, step).table)
  {
    var k, t := At(s, step.c), Next(environment, s, step);
    assert Keyed(s.table) && Sound(s.table, k) && Known(environment, builds, creates, s.table, k);
    RowsStay(environment, s, step);
    if s.table == map[] && t.table != map[] {
      if step.SeedOne? {
        Opening(environment, builds, creates, k.build, k.build.seed[0]);
      } else {
        Opening(environment, builds, creates, k.build, k.calls[step.call].app);
      }
    }
    hide CanOpenWithout, Next, Invariant, Known;
    if s.table != map[] { var id :| id in s.table; }
  }

  lemma StepTraced(environment: Environment, builds: seq<Build>, creates: iset<App>, s: State, step: Step)
    requires Invariant(s) && Traced(environment, builds, creates, s) && From(builds, creates, step)
    ensures Traced(environment, builds, creates, Next(environment, s, step))
  {
    var t := Next(environment, s, step);
    assert Keyed(s.table);
    TableOpened(environment, builds, creates, s, step);
    RowsStay(environment, s, step);
    OwnKnown(environment, builds, creates, s, step);
    forall c ensures Known(environment, builds, creates, t.table, At(t, c)) {
      assert Known(environment, builds, creates, s.table, At(s, c));
      if c != step.c {
        OthersUnchanged(environment, s, step, c);
        KnownLater(environment, builds, creates, s.table, t.table, At(t, c));
      }
      hide Next, Known, Invariant;
    }
    hide Next, Known, Opened, Invariant;
  }

  lemma {:induction false} RunTraced(environment: Environment, builds: seq<Build>, creates: iset<App>, steps: seq<Step>)
    requires OnlyFrom(builds, creates, steps)
    ensures Traced(environment, builds, creates, Run(environment, steps))
  {
    if steps != [] {
      var front, last := steps[..|steps| - 1], steps[|steps| - 1];
      assert last in steps && forall step :: step in front ==> step in steps;
      RunTraced(environment, builds, creates, front);
      RunInvariant(environment, front);
      hide Next, Invariant, Traced, From;
      StepTraced(environment, builds, creates, Run(environment, front), last);
    }
  }

  // --- if the seeds agree and the creates are harmless ------------------------

  lemma AllBring(builds: seq<Build>, build: Build)
    requires SeedsAgree(builds) && build in builds
    ensures Brings(ServedSeeds(builds), build)
  {
    var j :| 0 <= j < |builds| && builds[j] == build;
    hide Agrees, Loads;
  }

  lemma HarmlessStep(environment: Environment, builds: seq<Build>, creates: iset<App>, s: State, step: Step)
    requires Traced(environment, builds, creates, s) && From(builds, creates, step)
    requires SeedsAgree(builds) && Harmless(environment, builds, creates)
    ensures StepAgrees(environment, ServedSeeds(builds), s, step)
  {
    if step.Start? { AllBring(builds, step.build); }
    if step.Begin? && At(s, step.c).Serving? && At(s, step.c).build.parses(step.app) && step.app.environment == environment {
      assert Known(environment, builds, creates, s.table, At(s, step.c));
      var j :| 0 <= j < |builds| && builds[j] == At(s, step.c).build;
      hide ServedSeeds, Agrees, CanOpenWithout, SeedsAgree;
      if !Agrees(ServedSeeds(builds), step.app) {
        assert !CanCreateFirst(environment, builds, creates, builds[j], step.app);
        assert s.table != map[];
      }
    }
    hide Brings, SeedsAgree, ServedSeeds, Agrees;
  }

  lemma HarmlessRun(environment: Environment, builds: seq<Build>, creates: iset<App>, steps: seq<Step>)
    requires SeedsAgree(builds) && Harmless(environment, builds, creates) && OnlyFrom(builds, creates, steps)
    ensures ServesRows(Run(environment, steps))
  {
    hide Run, Traced, Harmless, StepAgrees, From, SeedsAgree, ServedSeeds;
    forall i | 0 <= i < |steps| ensures StepAgrees(environment, ServedSeeds(builds), Run(environment, steps[..i]), steps[i]) {
      assert forall step :: step in steps[..i] ==> step in steps;
      RunTraced(environment, builds, creates, steps[..i]);
      HarmlessStep(environment, builds, creates, Run(environment, steps[..i]), steps[i]);
    }
    RunAgreed(environment, steps, ServedSeeds(builds));
  }

  // --- if not, a race ---------------------------------------------------------

  /** Three containers: an opener and a seeder have found no rows, a creator has yet to look. */
  function AllStarted(opener: Build, seeder: Build, creator: Build): seq<Step> {
    [Start(0, opener)] + [Start(1, seeder)] + [Start(2, creator)] + [FindRows(0)] + [FindRows(1)]
  }

  function Found(build: Build): Container { if build.seed == [] then Serving(build, map[], map[]) else Seeding(build, 0) }

  function StartedState(opener: Build, seeder: Build, creator: Build): State {
    State(map[], map[0 := Found(opener), 1 := Found(seeder), 2 := Loading(creator)], [])
  }

  lemma ThreeStarted(environment: Environment, opener: Build, seeder: Build, creator: Build)
    ensures Run(environment, [Start(0, opener)] + [Start(1, seeder)] + [Start(2, creator)])
            == State(map[], map[0 := Loading(opener), 1 := Loading(seeder), 2 := Loading(creator)], [])
  {
    hide *;
    BothStarted(environment, opener, seeder);
    RunAppend(environment, [Start(0, opener)] + [Start(1, seeder)], Start(2, creator));
    StartsThird(environment, opener, seeder, creator);
  }

  lemma StartsThird(environment: Environment, opener: Build, seeder: Build, creator: Build)
    ensures var s := State(map[], map[0 := Loading(opener), 1 := Loading(seeder)], []);
            Keyed(s.table) && Next(environment, s, Start(2, creator))
            == State(map[], map[0 := Loading(opener), 1 := Loading(seeder), 2 := Loading(creator)], [])
  {
  }

  lemma Looks(environment: Environment, s: State, c: nat)
    requires s.table == map[] && At(s, c).Loading?
    ensures Keyed(s.table) && Next(environment, s, FindRows(c)) == Put(s, c, Found(At(s, c).build))
  {
    hide Next;
    LooksAtNothing(environment, s, c);
  }

  lemma BothFound(environment: Environment, opener: Build, seeder: Build, creator: Build)
    ensures var s := State(map[], map[0 := Loading(opener), 1 := Loading(seeder), 2 := Loading(creator)], []);
            && Keyed(s.table) && Keyed(Next(environment, s, FindRows(0)).table)
            && Next(environment, Next(environment, s, FindRows(0)), FindRows(1)) == StartedState(opener, seeder, creator)
  {
    var s := State(map[], map[0 := Loading(opener), 1 := Loading(seeder), 2 := Loading(creator)], []);
    var t := State(map[], map[0 := Found(opener), 1 := Loading(seeder), 2 := Loading(creator)], []);
    hide Next, Found;
    Looks(environment, s, 0);
    Looks(environment, t, 1);
    assert s.containers[0 := Found(opener)] == t.containers;
    assert t.containers[1 := Found(seeder)] == StartedState(opener, seeder, creator).containers;
  }

  lemma AllStartedState(environment: Environment, opener: Build, seeder: Build, creator: Build)
    ensures Run(environment, AllStarted(opener, seeder, creator)) == StartedState(opener, seeder, creator)
  {
    var three := [Start(0, opener)] + [Start(1, seeder)] + [Start(2, creator)];
    assert AllStarted(opener, seeder, creator) == three + [FindRows(0)] + [FindRows(1)];
    hide *;
    ThreeStarted(environment, opener, seeder, creator);
    BothFound(environment, opener, seeder, creator);
    RunAppend(environment, three, FindRows(0));
    RunAppend(environment, three + [FindRows(0)], FindRows(1));
  }

  /** The opener writes the first row: its seed's, or one it creates. */
  function OpeningSteps(opener: Build, w: App): seq<Step> {
    if opener.seed != [] then [SeedOne(0)] else [Begin(0, 0, w)] + [Insert(0, 0)]
  }

  function FirstApp(opener: Build, w: App): App { if opener.seed != [] then opener.seed[0] else w }

  lemma OpenedState(environment: Environment, opener: Build, seeder: Build, creator: Build, w: App)
    requires opener.seed == [] ==> opener.parses(w) && w.environment == environment
    ensures var s := Run(environment, AllStarted(opener, seeder, creator) + OpeningSteps(opener, w)); var first := FirstApp(opener, w);
            s.table == map[first.appId := first] && At(s, 1) == Found(seeder) && At(s, 2) == Loading(creator)
  {
    var started := AllStarted(opener, seeder, creator);
    hide Run, AllStarted;
    AllStartedState(environment, opener, seeder, creator);
    var s := StartedState(opener, seeder, creator);
    if opener.seed != [] {
      RunAppend(environment, started, SeedOne(0));
      hide RegisterAll, Parsed;
    } else {
      RunAppend(environment, started, Begin(0, 0, w));
      RunAppend(environment, started + [Begin(0, 0, w)], Insert(0, 0));
      assert started + ([Begin(0, 0, w)] + [Insert(0, 0)]) == started + [Begin(0, 0, w)] + [Insert(0, 0)];
      OpenedByCreate(environment, s, opener, w);
      hide Next;
    }
  }

  lemma OpenedByCreate(environment: Environment, s: State, build: Build, w: App)
    requires s.table == map[] && At(s, 0) == Serving(build, map[], map[]) && build.parses(w) && w.environment == environment
    ensures Keyed(s.table) && Keyed(Next(environment, s, Begin(0, 0, w)).table)
    ensures var t := Next(environment, Next(environment, s, Begin(0, 0, w)), Insert(0, 0));
            t.table == map[w.appId := w] && forall c :: c != 0 ==> At(t, c) == At(s, c)
  {
  }

  /** Then the creator loads and creates, and the seeder, which had found nothing, seeds and serves its own. */
  function LateCreate(opener: Build, seeder: Build, creator: Build, w: App, z: App): seq<Step> {
    Created(AllStarted(opener, seeder, creator) + OpeningSteps(opener, w), z) + Times(SeedOne(1), |seeder.seed| + 1)
  }

  function Created(steps: seq<Step>, z: App): seq<Step> { steps + [FindRows(2)] + [Begin(2, 0, z)] + [Insert(2, 0)] }

  lemma CreatesLate(environment: Environment, s: State, build: Build, z: App)
    requires Keyed(s.table) && s.table != map[] && At(s, 2) == Loading(build) && z.appId !in s.table
    requires build.parses(z) && z.environment == environment
    ensures var a := Next(environment, s, FindRows(2));
            && Keyed(a.table)
            && var b := Next(environment, a, Begin(2, 0, z));
               && Keyed(b.table)
               && var t := Next(environment, b, Insert(2, 0));
                  t.table == s.table[z.appId := z] && At(t, 1) == At(s, 1)
  {
    var id :| id in s.table;
    assert |s.table| > 0;
    hide Parsed;
  }

  lemma CreatedState(environment: Environment, steps: seq<Step>, build: Build, z: App)
    requires var s := Run(environment, steps); s.table != map[] && At(s, 2) == Loading(build) && z.appId !in s.table
    requires build.parses(z) && z.environment == environment
    ensures var s, t := Run(environment, steps), Run(environment, Created(steps, z));
            z.appId in t.table && t.table[z.appId] == z && At(t, 1) == At(s, 1)
  {
    hide Run, Next;
    CreatesLate(environment, Run(environment, steps), build, z);
    RunAppend(environment, steps, FindRows(2));
    RunAppend(environment, steps + [FindRows(2)], Begin(2, 0, z));
    RunAppend(environment, steps + [FindRows(2)] + [Begin(2, 0, z)], Insert(2, 0));
  }

  /** A create that gets in after the first row and ahead of the seeds' own is served as two definitions. */
  lemma LateCreateServesAnother(environment: Environment, opener: Build, seeder: Build, creator: Build, w: App, y: App, z: App)
    requires opener.seed == [] ==> opener.parses(w) && w.environment == environment
    requires FirstApp(opener, w).appId != z.appId
    requires creator.parses(z) && z.environment == environment
    requires y in seeder.seed && Loads(seeder) && y.appId == z.appId && y != z
    ensures !ServesRows(Run(environment, LateCreate(opener, seeder, creator, w, z)))
  {
    var steps := AllStarted(opener, seeder, creator) + OpeningSteps(opener, w);
    assert Found(seeder) == Seeding(seeder, 0);
    hide Run, Loads, AllStarted, OpeningSteps, Created;
    OpenedState(environment, opener, seeder, creator, w);
    assert FirstApp(opener, w).appId in Run(environment, steps).table;
    CreatedState(environment, steps, creator, z);
    SeedsTooLate(environment, Created(steps, z), seeder, y, z);
  }

  lemma {:induction false} TimesFrom(builds: seq<Build>, creates: iset<App>, c: nat, n: nat)
    ensures OnlyFrom(builds, creates, Times(SeedOne(c), n))
  {
    if n > 0 { TimesFrom(builds, creates, c, n - 1); }
  }

  lemma PartSeededRaceFrom(builds: seq<Build>, creates: iset<App>, i: nat, j: nat, n: nat)
    requires i < |builds| && j < |builds|
    ensures OnlyFrom(builds, creates, PartSeededRace(builds[i], builds[j], n))
  {
    TimesFrom(builds, creates, 0, n);
    TimesFrom(builds, creates, 1, |builds[j].seed| + 1);
    hide Times;
  }

  lemma CreateRaceFrom(builds: seq<Build>, creates: iset<App>, j: nat, i: nat, z: App)
    requires i < |builds| && j < |builds| && z in creates
    ensures OnlyFrom(builds, creates, CreateRace(builds[j], builds[i], z))
  {
    TimesFrom(builds, creates, 1, |builds[i].seed| + 1);
    hide Times;
  }

  lemma LateCreateFrom(builds: seq<Build>, creates: iset<App>, k: nat, i: nat, j: nat, w: App, z: App)
    requires k < |builds| && i < |builds| && j < |builds| && z in creates && (builds[k].seed == [] ==> w in creates)
    ensures OnlyFrom(builds, creates, LateCreate(builds[k], builds[i], builds[j], w, z))
  {
    TimesFrom(builds, creates, 1, |builds[i].seed| + 1);
    hide Times;
  }

  lemma HarmfulRun(environment: Environment, builds: seq<Build>, creates: iset<App>, i: nat, j: nat, y: App, z: App)
    returns (steps: seq<Step>)
    requires i < |builds| && j < |builds| && y in builds[i].seed && Loads(builds[i])
    requires z in creates && CanCreateFirst(environment, builds, creates, builds[j], z) && y.appId == z.appId && y != z
    ensures OnlyFrom(builds, creates, steps) && !ServesRows(Run(environment, steps))
  {
    hide Run, OnlyFrom, ServesRows;
    if builds[j].seed == [] {
      steps := CreateRace(builds[j], builds[i], z);
      CreateRaceFrom(builds, creates, j, i, z);
      CreateRaceServesAnother(environment, builds[j], builds[i], y, z);
    } else {
      var k :| 0 <= k < |builds| && OpensWithout(environment, creates, builds[k], z.appId);
      var w := y;
      if builds[k].seed == [] {
        w :| w in creates && builds[k].parses(w) && w.environment == environment && w.appId != z.appId;
      }
      steps := LateCreate(builds[k], builds[i], builds[j], w, z);
      LateCreateFrom(builds, creates, k, i, j, w, z);
      LateCreateServesAnother(environment, builds[k], builds[i], builds[j], w, y, z);
    }
  }

  // --- exactly ----------------------------------------------------------------

  /**
   * Given builds, loading or not, and creates: every run of them serves exactly what is recorded if and
   * only if whatever a seed can write, and whatever can be created ahead of its row, agrees with the
   * seeds that load.
   */
  lemma RowsServedExactly(environment: Environment, builds: seq<Build>, creates: iset<App>)
    ensures (forall steps :: OnlyFrom(builds, creates, steps) ==> ServesRows(Run(environment, steps)))
            <==> SeedsAgree(builds) && Harmless(environment, builds, creates)
  {
    hide Run, OnlyFrom, ServesRows, Loads;
    if !SeedsAgree(builds) {
      var j, i :| 0 <= j < |builds| && FirstOfId(builds[j].seed, i) && !Agrees(ServedSeeds(builds), builds[j].seed[i]);
      var y :| y in ServedSeeds(builds) && y.appId == builds[j].seed[i].appId && y != builds[j].seed[i];
      var k :| 0 <= k < |builds| && Loads(builds[k]) && y in builds[k].seed;
      PartSeedingServesAnother(environment, builds[j], builds[k], i, y);
      PartSeededRaceFrom(builds, creates, j, k, i + 1);
    } else if !Harmless(environment, builds, creates) {
      var j, z :| 0 <= j < |builds| && z in creates && CanCreateFirst(environment, builds, creates, builds[j], z)
        && !Agrees(ServedSeeds(builds), z);
      var y :| y in ServedSeeds(builds) && y.appId == z.appId && y != z;
      var i :| 0 <= i < |builds| && Loads(builds[i]) && y in builds[i].seed;
      var _ := HarmfulRun(environment, builds, creates, i, j, y, z);
    } else {
      forall steps | OnlyFrom(builds, creates, steps) ensures ServesRows(Run(environment, steps)) {
        HarmlessRun(environment, builds, creates, steps);
      }
    }
  }

  /** With nothing created, if and only if the seeds agree. */
  lemma RowsServedExactlyWhenSeedsAgree(environment: Environment, builds: seq<Build>)
    ensures (forall steps :: OnlyFrom(builds, iset{}, steps) ==> ServesRows(Run(environment, steps))) <==> SeedsAgree(builds)
  {
    hide Run, OnlyFrom, ServesRows, SeedsAgree, CanCreateFirst;
    RowsServedExactly(environment, builds, iset{});
  }

  /** Where every seed loads, that is one definition per id. */
  lemma LoadingSeedsAgreeExactly(builds: seq<Build>)
    requires forall j :: 0 <= j < |builds| ==> Loads(builds[j])
    ensures ServedSeeds(builds) == SeedsIn(builds)
    ensures SeedsAgree(builds) <==> OneEach(SeedsIn(builds))
  {
    hide Loads;
    assert ServedSeeds(builds) == SeedsIn(builds);
    if SeedsAgree(builds) {
      forall x, y | x in SeedsIn(builds) && y in SeedsIn(builds) && y.appId == x.appId ensures x == y {
        var j :| 0 <= j < |builds| && x in builds[j].seed;
        var k :| 0 <= k < |builds[j].seed| && builds[j].seed[k] == x;
        var i := FirstUnder(builds[j].seed, k);
        assert Agrees(ServedSeeds(builds), builds[j].seed[i]);
      }
    }
    if OneEach(SeedsIn(builds)) {
      forall j, i | 0 <= j < |builds| && FirstOfId(builds[j].seed, i) ensures Agrees(ServedSeeds(builds), builds[j].seed[i]) {
        assert builds[j].seed[i] in SeedsIn(builds);
      }
    }
  }

  lemma {:induction false} FirstUnder(seed: seq<App>, k: nat) returns (i: nat)
    requires k < |seed|
    ensures FirstOfId(seed, i) && seed[i].appId == seed[k].appId
  {
    if j :| 0 <= j < k && seed[j].appId == seed[k].appId {
      i := FirstUnder(seed, j);
    } else {
      i := k;
    }
  }

  /**
   * One build with a seed, as a deployment runs it: if and only if its seed gives one definition per id,
   * and every create it accepts repeats the seed's definition of a seeded id, or has the id of the seed's
   * first application, whose row always comes first.
   */
  lemma OneBuildServesRowsExactly(environment: Environment, build: Build, creates: iset<App>)
    requires build.seed != [] && Loads(build)
    ensures var seeds := SeedsIn([build]);
            (forall steps :: OnlyFrom([build], creates, steps) ==> ServesRows(Run(environment, steps)))
            <==> OneEach(seeds)
                 && forall z :: z in creates && build.parses(z) && z.environment == environment ==>
                      Agrees(seeds, z) || z.appId == build.seed[0].appId
  {
    hide Run, OnlyFrom, ServesRows, SeedsIn, ServedSeeds, SeedsAgree, OneEach, Agrees, Loads;
    RowsServedExactly(environment, [build], creates);
    LoadingSeedsAgreeExactly([build]);
    forall z ensures CanCreateFirst(environment, [build], creates, build, z)
                     <==> build.parses(z) && z.environment == environment && z.appId != build.seed[0].appId {
      assert [build][0] == build;
      assert OpensWithout(environment, creates, [build][0], z.appId) <==> z.appId != build.seed[0].appId;
    }
    hide CanCreateFirst;
    assert forall z :: z in creates && CanCreateFirst(environment, [build], creates, [build][0], z) && Harmless(environment, [build], creates) ==> Agrees(ServedSeeds([build]), z);
  }

  // A release whose seed does not load, deployed beside one whose seed does.

  function Refused(): Build {
    Build((app: App) => app.definition != "", [App("production", "wallet", "2"), App("production", "ledger", "")])
  }

  /** It writes its rows, throws, and never serves: the other serves a definition that is not the row. */
  lemma RefusedSeedRace()
    ensures !Loads(Refused()) && Loads(Deployed())
    ensures !ServesRows(Run("production", PartSeededRace(Refused(), Deployed(), 1)))
  {
    var y := App("production", "wallet", "1");
    assert "1"[0] != "2"[0] && Refused().seed[0] == App("production", "wallet", "2") && y in Deployed().seed;
    assert FirstOfId(Refused().seed, 0);
    DeployedLoads();
    hide Run, ServesRows, PartSeededRace;
    PartSeedingServesAnother("production", Refused(), Deployed(), 0, y);
  }

  // A deployment of one build whose seed has two applications, and a create of the second.

  function Deployed(): Build { Build(_ => true, [App("production", "ledger", "1"), App("production", "wallet", "1")]) }

  function Recreated(): App { App("production", "wallet", "2") }

  /** Three of its containers: one writes the first row, one loads it and creates, one seeds too late. */
  lemma OneBuildRace()
    ensures !ServesRows(Run("production", LateCreate(Deployed(), Deployed(), Deployed(), Recreated(), Recreated())))
    ensures OnlyFrom([Deployed()], iset{Recreated()}, LateCreate(Deployed(), Deployed(), Deployed(), Recreated(), Recreated()))
    ensures OneEach(SeedsIn([Deployed()]))
  {
    var build, y, z := Deployed(), App("production", "wallet", "1"), Recreated();
    assert "ledger"[0] != "wallet"[0] && "1"[0] != "2"[0];
    assert y in build.seed;
    DeployedLoads();
    hide Run, OnlyFrom, ServesRows, Loads;
    LateCreateServesAnother("production", build, build, build, z, y, z);
    assert [build][0] == build;
    LateCreateFrom([build], iset{z}, 0, 0, 0, z, z);
  }

  lemma DeployedLoads()
    ensures Loads(Deployed())
  {
    var a, b := App("production", "ledger", "1"), App("production", "wallet", "1");
    assert "ledger"[0] != "wallet"[0];
    assert [a, b][..1] == [a] && [a][..0] == [];
    assert RegisterAll(Deployed(), [a]) == Some(map[KeyOf(a) := a]);
  }
}
