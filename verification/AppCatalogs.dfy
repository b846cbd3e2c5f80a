/** The durable application catalog: containers loading, seeding, creating and crashing over one table. */
module AppCatalogs {
  import opened Text

  type Environment = string

  datatype App = App(environment: Environment, appId: string, definition: string)

  /** What a container is built with: the schema it validates against and the seed it was given. */
  datatype Build = Build(parses: App -> bool, seed: seq<App>)

  type Key = (Environment, string)

  function KeyOf(app: App): Key { (app.environment, app.appId) }

  /** The rows of this environment, by application id. */
  type Table = map<string, App>

  /** The rows that still validate, under the keys they are served by. */
  function Parsed(table: Table, build: Build): (apps: map<Key, App>)
    requires Keyed(table)
    ensures forall k :: k in apps ==> k.1 in table && apps[k] == table[k.1] && KeyOf(apps[k]) == k && build.parses(apps[k])
    ensures forall id :: id in table && build.parses(table[id]) ==> KeyOf(table[id]) in apps
  {
    var ids := set id | id in table && build.parses(table[id]);
    map k: Key | k in (set id | id in ids :: KeyOf(table[id])) :: table[k.1]
  }

  /** Every row sits under its own application's id. */
  ghost predicate Keyed(table: Table) { forall id :: id in table ==> table[id].appId == id }

  /** Registering a list one by one: nothing when one does not validate or repeats a key. */
  function RegisterAll(build: Build, apps: seq<App>): (r: Option<map<Key, App>>)
    ensures r.Some? ==> forall k :: k in r.value ==> KeyOf(r.value[k]) == k && r.value[k] in apps
    ensures r.Some? ==> forall a :: a in apps ==> KeyOf(a) in r.value && r.value[KeyOf(a)] == a
  {
    if apps == [] then Some(map[])
    else
      var last, front := apps[|apps| - 1], apps[..|apps| - 1];
      assert apps == front + [last];
      match RegisterAll(build, front)
      case None => None
      case Some(m) => if !build.parses(last) || KeyOf(last) in m then None else Some(m[KeyOf(last) := last])
  }

  /** A list registers exactly when everything in it validates and no two share an environment and an id. */
  lemma {:induction false} RegistersExactly(build: Build, apps: seq<App>)
    ensures RegisterAll(build, apps).Some? <==>
              (forall i :: 0 <= i < |apps| ==> build.parses(apps[i]))
              && forall i, j :: 0 <= i < j < |apps| ==> apps[i].environment != apps[j].environment || apps[i].appId != apps[j].appId
  {
    if apps != [] {
      var n := |apps| - 1;
      var front, last := apps[..n], apps[n];
      assert apps == front + [last];
      RegistersExactly(build, front);
      assert forall i :: 0 <= i < n ==> front[i] == apps[i];
      if RegisterAll(build, front).Some? {
        var m := RegisterAll(build, front).value;
        assert KeyOf(last) in m <==> exists i :: 0 <= i < n && KeyOf(apps[i]) == KeyOf(last) by {
          if KeyOf(last) in m { var a := m[KeyOf(last)]; assert a in front; }
          if i :| 0 <= i < n && KeyOf(apps[i]) == KeyOf(last) { assert front[i] in front; }
        }
      }
    }
  }

  /** An insert under the unique constraint: a row already there stays. */
  function Inserted(table: Table, app: App): Table { if app.appId in table then table else table[app.appId := app] }

  /** The table after seeding the first `n` applications. */
  function Seeded(table: Table, seed: seq<App>, n: nat): (r: Table)
    requires n <= |seed|
    ensures forall i :: 0 <= i < n ==> seed[i].appId in r
    ensures forall id :: id in table ==> id in r && r[id] == table[id]
    ensures Keyed(table) ==> Keyed(r)
  {
    if n == 0 then table else Inserted(Seeded(table, seed, n - 1), seed[n - 1])
  }

  lemma SeededNothing(seed: seq<App>)
    ensures seed == [] ==> Seeded(map[], seed, |seed|) == map[]
  {
  }

  // --- one container on its own -----------------------------------------------

  class InternalApplicationTable {
    var rows: Table

    constructor ()
      ensures rows == map[]
    {
      rows := map[];
    }

    /** False on a unique-constraint violation. */
    method Create(app: App) returns (ok: bool)
      modifies this
      ensures ok == (app.appId !in old(rows)) && rows == Inserted(old(rows), app)
    {
      ok := app.appId !in rows;
      if ok { rows := rows[app.appId := app]; }
    }
  }

  datatype CreateError = Invalid | WrongEnvironment | AlreadyRegistered | Sealed

  datatype CreateResult = Created(app: App) | Failed(error: CreateError)

  class PersistentAppCatalog {
    const table: InternalApplicationTable
    const environment: Environment
    const build: Build
    var apps: map<Key, App>
    var isSealed: bool

    /** Sealed, and serving only what is recorded. */
    ghost predicate Valid()
      reads this, table
    {
      && isSealed && Keyed(table.rows)
      && forall k :: k in apps ==> k.1 in table.rows && KeyOf(apps[k]) == k
    }

    constructor (table: InternalApplicationTable, environment: Environment, build: Build, apps: map<Key, App>)
      ensures this.table == table && this.environment == environment && this.build == build
      ensures this.apps == apps && isSealed
    {
      this.table := table;
      this.environment := environment;
      this.build := build;
      this.apps := apps;
      this.isSealed := true;
    }

    /** The inherited registration: refused while sealed, and it never touches the table. */
    method Register(app: App) returns (r: CreateResult)
      modifies this
      ensures isSealed == old(isSealed)
      ensures r == (if old(isSealed) then Failed(Sealed)
                    else if !build.parses(app) then Failed(Invalid)
                    else if KeyOf(app) in old(apps) then Failed(AlreadyRegistered)
                    else Created(app))
      ensures apps == if r.Created? then old(apps)[KeyOf(app) := app] else old(apps)
    {
      if isSealed { return Failed(Sealed); }
      if !build.parses(app) { return Failed(Invalid); }
      if KeyOf(app) in apps { return Failed(AlreadyRegistered); }
      apps := apps[KeyOf(app) := app];
      return Created(app);
    }

    /** The row first, then the map: once the row is in, registering cannot fail. */
    method Create(app: App) returns (r: CreateResult)
      requires Valid()
      modifies this, table
      ensures Valid()
      ensures r == (if !build.parses(app) then Failed(Invalid)
                    else if app.environment != environment then Failed(WrongEnvironment)
                    else if app.appId in old(table.rows) then Failed(AlreadyRegistered)
                    else Created(app))
      ensures table.rows == if r.Created? then old(table.rows)[app.appId := app] else old(table.rows)
      ensures apps == if r.Created? then old(apps)[KeyOf(app) := app] else old(apps)
    {
      if !build.parses(app) { return Failed(Invalid); }
      if app.environment != environment { return Failed(WrongEnvironment); }
      var ok := table.Create(app);
      if !ok { return Failed(AlreadyRegistered); }
      isSealed := false;
      r := Register(app);
      isSealed := true;
    }

    /** Writes every seed application, a row already there standing. */
    static method WriteSeed(table: InternalApplicationTable, seed: seq<App>)
      modifies table
      ensures table.rows == Seeded(old(table.rows), seed, |seed|)
    {
      for i := 0 to |seed|
        invariant table.rows == Seeded(old(table.rows), seed, i)
      {
        var _ := table.Create(seed[i]);
      }
    }

    /** Loads the rows that validate, or writes and serves the seed when there are none. */
    static method Load(table: InternalApplicationTable, environment: Environment, build: Build)
      returns (catalog: Option<PersistentAppCatalog>)
      requires Keyed(table.rows)
      modifies table
      ensures Keyed(table.rows)
      ensures table.rows == if |old(table.rows)| == 0 then Seeded(map[], build.seed, |build.seed|) else old(table.rows)
      ensures catalog.Some? ==> fresh(catalog.value) && catalog.value.table == table && catalog.value.Valid()
      ensures |old(table.rows)| > 0 ==> catalog.Some? && catalog.value.apps == Parsed(old(table.rows), build)
      ensures |old(table.rows)| == 0 && |build.seed| > 0 ==>
                match RegisterAll(build, build.seed)
                case None => catalog.None?
                case Some(apps) => catalog.Some? && catalog.value.apps == apps
      ensures |old(table.rows)| == 0 && |build.seed| == 0 ==> catalog.Some? && catalog.value.apps == map[]
    {
      assert |table.rows| == 0 ==> table.rows == map[];
      assert Parsed(map[], build) == map[];
      hide Parsed, RegisterAll, Seeded;
      if |table.rows| == 0 && |build.seed| > 0 {
        WriteSeed(table, build.seed);
        var registered := RegisterAll(build, build.seed);
        if registered.None? { return None; }
        var c := new PersistentAppCatalog(table, environment, build, registered.value);
        return Some(c);
      }
      SeededNothing(build.seed);
      var c := new PersistentAppCatalog(table, environment, build, Parsed(table.rows, build));
      return Some(c);
    }
  }
}
