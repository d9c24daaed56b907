/**
 * The gorm module of the core (otgorm/module.go): the module's settings, the
 * collection of migrations and seeds for one database connection, and the
 * `database migrate` and `database seed` commands. Database handles and the
 * logger are opaque identities; running migrations, rollbacks and seeds is an
 * effect recorded in a trace, with its outcome given as a parameter.
 */
module Gorm {
  import opened Wrappers

  /** The connection used when none is named. */
  const DefaultConnection: string := "default"

  /** A time.Duration counts nanoseconds. */
  const Second: int := 1_000_000_000

  /** defaultInterval: fifteen seconds. */
  const DefaultInterval: int := 15 * Second

  /** The empty connection name stands for the default connection. */
  function Normalize(connection: string): (r: string)
    ensures r != ""
    ensures connection != "" ==> r == connection
    ensures connection == "" ==> r == DefaultConnection
  {
    if connection == "" then DefaultConnection else connection
  }

  /** The commands' connection: the first argument when one is given, else the default. */
  function ConnectionFromArgs(args: seq<string>): (r: string)
    ensures |args| > 0 ==> r == args[0]
    ensures |args| == 0 ==> r == DefaultConnection
  {
    if |args| > 0 then args[0] else DefaultConnection
  }

  /** The identity of a database handle or a logger made outside this module. */
  type Handle = nat

  class Migration {
    const id: string
    var connection: string

    constructor (id: string, connection: string)
      ensures this.id == id && this.connection == connection
    {
      this.id, this.connection := id, connection;
    }

    /** The collectors' rewrite of an empty connection, through the pointer. */
    method NormalizeConnection()
      modifies this
      ensures connection == Normalize(old(connection))
    {
      if connection == "" {
        connection := DefaultConnection;
      }
    }
  }

  class Seed {
    const name: string
    var connection: string

    constructor (name: string, connection: string)
      ensures this.name == name && this.connection == connection
    {
      this.name, this.connection := name, connection;
    }

    /** The collectors' rewrite of an empty connection, through the pointer. */
    method NormalizeConnection()
      modifies this
      ensures connection == Normalize(old(connection))
    {
      if connection == "" {
        connection := DefaultConnection;
      }
    }
  }

  /**
   * A module of the container: what ProvideMigration returns when it is a
   * MigrationProvider, what ProvideSeed returns when it is a SeedProvider.
   */
  datatype Provider = Provider(migrations: Option<seq<Migration>>, seeds: Option<seq<Seed>>)

  /** The gorm module: the maker of database handles, the environment, the logger, the container's modules. */
  datatype Module = Module(maker: string -> Option<Handle>, production: bool, logger: Handle,
                           modules: seq<Provider>, interval: int)

  /**
   * New: the interval is the configured `gormMetrics.interval` when the
   * configuration yields one, and the fifteen-second default otherwise.
   */
  function New(maker: string -> Option<Handle>, production: bool, logger: Handle, modules: seq<Provider>,
               configured: Option<int>): (r: Module)
    ensures r.maker == maker && r.production == production && r.logger == logger && r.modules == modules
    ensures configured.None? ==> r.interval == DefaultInterval
    ensures configured.Some? ==> r.interval == configured.value
  {
    Module(maker, production, logger, modules, if configured.Some? then configured.value else DefaultInterval)
  }

  // ---------------------------------------------------------------------------
  // Filters over a recorded snapshot of the connections

  /** The distinct elements of a sequence. */
  function Elements<T>(s: seq<T>): set<T>
  {
    set x | x in s
  }

  lemma ElementsAt<T>(s: seq<T>, j: nat)
    requires j < |s|
    ensures Elements(s[..j + 1]) == Elements(s[..j]) + {s[j]}
  {
    assert s[..j + 1] == s[..j] + [s[j]];
  }

  lemma ElementsAppend<T>(a: seq<T>, b: seq<T>)
    ensures Elements(a + b) == Elements(a) + Elements(b)
  {
  }

  /**
   * The order-preserving filter of `items` on the normalized connections
   * recorded in `norm`: what the collectors select, stated without reading
   * the objects, whose connections the collectors rewrite as they go.
   */
  function Select<T>(items: seq<T>, norm: map<T, string>, conn: string): seq<T>
    requires forall x :: x in items ==> x in norm
  {
    if items == [] then []
    else
      var last := items[|items| - 1];
      Select(items[..|items| - 1], norm, conn) + (if norm[last] == conn then [last] else [])
  }

  /** A selected item is one of the items, recorded with the connection. */
  lemma {:induction false} SelectMembers<T>(items: seq<T>, norm: map<T, string>, conn: string, x: T)
    requires forall y :: y in items ==> y in norm
    ensures x in Select(items, norm, conn) <==> x in items && norm[x] == conn
  {
    if items != [] {
      var n := |items| - 1;
      SelectMembers(items[..n], norm, conn, x);
      assert items == items[..n] + [items[n]];
    }
  }

  lemma SelectAt<T>(items: seq<T>, j: nat, norm: map<T, string>, conn: string)
    requires j < |items| && forall x :: x in items ==> x in norm
    ensures Select(items[..j + 1], norm, conn) == Select(items[..j], norm, conn) + (if norm[items[j]] == conn then [items[j]] else [])
  {
    assert items[..j + 1][..j] == items[..j];
  }

  /** Selecting from a concatenation selects from each part. */
  lemma {:induction false} SelectAppend<T>(a: seq<T>, b: seq<T>, norm: map<T, string>, conn: string)
    requires forall x :: x in a + b ==> x in norm
    ensures Select(a + b, norm, conn) == Select(a, norm, conn) + Select(b, norm, conn)
    decreases |b|
  {
    if b == [] {
      assert a + b == a;
    } else {
      var n := |b| - 1;
      assert (a + b)[..|a + b| - 1] == a + b[..n];
      assert (a + b)[|a + b| - 1] == b[n];
      SelectAppend(a, b[..n], norm, conn);
    }
  }

  // ---------------------------------------------------------------------------
  // Collecting migrations

  function ProvidedMigrations(p: Provider): seq<Migration>
  {
    match p.migrations
    case None => []
    case Some(ms) => ms
  }

  /** Every provider's migrations, concatenated in module order; other modules contribute nothing. */
  function AllMigrations(ps: seq<Provider>): seq<Migration>
  {
    if ps == [] then [] else AllMigrations(ps[..|ps| - 1]) + ProvidedMigrations(ps[|ps| - 1])
  }

  /** The migrations of the given modules followed by those of the next ones. */
  lemma {:induction false} AllMigrationsAppend(a: seq<Provider>, b: seq<Provider>)
    ensures AllMigrations(a + b) == AllMigrations(a) + AllMigrations(b)
    decreases |b|
  {
    if b == [] {
      assert a + b == a;
    } else {
      var n := |b| - 1;
      assert (a + b)[..|a + b| - 1] == a + b[..n];
      assert (a + b)[|a + b| - 1] == b[n];
      AllMigrationsAppend(a, b[..n]);
    }
  }

  /** A migration is provided iff some MigrationProvider among the modules lists it. */
  lemma {:induction false} AllMigrationsMembers(ps: seq<Provider>, m: Migration)
    ensures m in AllMigrations(ps) <==>
      exists i :: 0 <= i < |ps| && ps[i].migrations.Some? && m in ps[i].migrations.value
  {
    if ps != [] {
      var n := |ps| - 1;
      AllMigrationsMembers(ps[..n], m);
      if m in ProvidedMigrations(ps[n]) {
        assert ps[n].migrations.Some? && m in ps[n].migrations.value;
      }
      if exists i :: 0 <= i < |ps| && ps[i].migrations.Some? && m in ps[i].migrations.value {
        var i :| 0 <= i < |ps| && ps[i].migrations.Some? && m in ps[i].migrations.value;
        if i < n {
          assert ps[..n][i] == ps[i];
        }
      }
    }
  }

  lemma AllMigrationsSplit(ps: seq<Provider>, k: nat)
    requires k <= |ps|
    ensures AllMigrations(ps) == AllMigrations(ps[..k]) + AllMigrations(ps[k..])
  {
    AllMigrationsAppend(ps[..k], ps[k..]);
    assert ps[..k] + ps[k..] == ps;
  }

  /** Where a provider's migrations sit among all of them: right after those of the modules before it. */
  lemma AllMigrationsAt(ps: seq<Provider>, i: nat)
    requires i < |ps|
    ensures AllMigrations(ps[..i + 1]) == AllMigrations(ps[..i]) + ProvidedMigrations(ps[i])
    ensures forall m :: m in AllMigrations(ps[..i + 1]) ==> m in AllMigrations(ps)
  {
    assert ps[..i + 1][..i] == ps[..i];
    AllMigrationsSplit(ps, i + 1);
  }

  /** The connections of the given migrations, in order. */
  function MigrationConnections(ms: seq<Migration>): (r: seq<string>)
    reads ms
    ensures |r| == |ms|
    ensures forall k :: 0 <= k < |ms| ==> r[k] == ms[k].connection
  {
    if ms == [] then [] else MigrationConnections(ms[..|ms| - 1]) + [ms[|ms| - 1].connection]
  }

  /** The migrations whose connection, read as a normalized name, is `conn`, in their order. */
  function MigrationsFor(ms: seq<Migration>, conn: string): (r: seq<Migration>)
    reads ms
    ensures |r| <= |ms|
    ensures forall m :: m in r ==> m in ms && Normalize(m.connection) == conn
  {
    if ms == [] then []
    else
      var last := ms[|ms| - 1];
      MigrationsFor(ms[..|ms| - 1], conn) + (if Normalize(last.connection) == conn then [last] else [])
  }

  /** A migration is collected iff it is provided and belongs to the connection. */
  lemma {:induction false} MigrationsForMembers(ms: seq<Migration>, conn: string, m: Migration)
    ensures m in MigrationsFor(ms, conn) <==> m in ms && Normalize(m.connection) == conn
  {
    if ms != [] {
      var n := |ms| - 1;
      MigrationsForMembers(ms[..n], conn, m);
      assert ms == ms[..n] + [ms[n]];
    }
  }

  /** With the migrations' normalized connections recorded, the two filters agree. */
  lemma {:induction false} MigrationsForSelect(ms: seq<Migration>, norm: map<Migration, string>, conn: string)
    requires forall m :: m in ms ==> m in norm && norm[m] == Normalize(m.connection)
    ensures MigrationsFor(ms, conn) == Select(ms, norm, conn)
  {
    if ms != [] {
      MigrationsForSelect(ms[..|ms| - 1], norm, conn);
    }
  }

  /**
   * During a collection: every recorded migration's connection still
   * normalizes to the recorded name, and those already visited hold it.
   */
  predicate MigrationsTracked(norm: map<Migration, string>, visited: set<Migration>)
    reads norm.Keys
  {
    forall m {:trigger norm[m]} :: m in norm ==>
      Normalize(m.connection) == norm[m] && (m in visited ==> m.connection == norm[m])
  }

  /** At the end of a collection that visited every migration: each holds its normalized connection. */
  lemma MigrationsSettled(all: seq<Migration>, norm: map<Migration, string>, snapshot: seq<string>, conn: string)
    requires |snapshot| == |all| && forall m :: m in all ==> m in norm
    requires forall k :: 0 <= k < |all| ==> norm[all[k]] == Normalize(snapshot[k])
    requires MigrationsTracked(norm, Elements(all))
    ensures forall k :: 0 <= k < |all| ==> all[k].connection == Normalize(snapshot[k])
    ensures forall m :: m in Select(all, norm, conn) ==> m.connection == conn
  {
    forall k | 0 <= k < |all|
      ensures all[k].connection == Normalize(snapshot[k])
    {
      assert all[k] in Elements(all);
    }
    forall m | m in Select(all, norm, conn)
      ensures m.connection == conn
    {
      SelectMembers(all, norm, conn, m);
      assert m in Elements(all);
    }
  }

  /** One step of the inner loop: rewrite an empty connection and say whether `m` belongs to `conn`. */
  method VisitMigration(m: Migration, conn: string, ghost norm: map<Migration, string>, ghost visited: set<Migration>)
    returns (picked: bool)
    requires m in norm && MigrationsTracked(norm, visited)
    modifies m
    ensures picked == (norm[m] == conn)
    ensures MigrationsTracked(norm, visited + {m})
  {
    m.NormalizeConnection();
    picked := m.connection == conn;
  }

  /**
   * The inner loop of collectMigrations, over one provider's migrations,
   * appending to `collection0` those of `conn`. `norm` records every
   * provided migration's normalized connection, `done` the migrations
   * visited before.
   */
  method CollectMigrationsFrom(ms: seq<Migration>, conn: string, collection0: seq<Migration>,
                               ghost norm: map<Migration, string>, ghost done: set<Migration>,
                               ghost footprint: set<Migration>)
    returns (collection: seq<Migration>)
    requires forall m :: m in ms ==> m in norm && m in footprint
    requires MigrationsTracked(norm, done)
    modifies footprint
    ensures collection == collection0 + Select(ms, norm, conn)
    ensures MigrationsTracked(norm, done + Elements(ms))
  {
    collection := collection0;
    ghost var visited := done;
    for j := 0 to |ms|
      invariant collection == collection0 + Select(ms[..j], norm, conn)
      invariant visited == done + Elements(ms[..j])
      invariant MigrationsTracked(norm, visited)
    {
      var m := ms[j];
      SelectAt(ms, j, norm, conn);
      var picked := VisitMigration(m, conn, norm, visited);
      if picked {
        collection := collection + [m];
      }
      visited := visited + {m};
      ElementsAt(ms, j);
    }
    assert ms[..|ms|] == ms;
  }

  /** Migrations: the collection to run and the handle of their database. */
  datatype Migrations = Migrations(collection: seq<Migration>, db: Option<Handle>)

  /**
   * collectMigrations: every provided migration with an empty connection is
   * rewritten to the default, collected or not; the collection is, in module
   * and list order, the provided migrations of the normalized connection;
   * the handle is the maker's for that connection, a failure giving none.
   */
  method CollectMigrations(gorm: Module, connection: string) returns (r: Migrations)
    modifies Elements(AllMigrations(gorm.modules))
    ensures var all := AllMigrations(gorm.modules);
      forall k :: 0 <= k < |all| ==> all[k].connection == Normalize(old(MigrationConnections(all))[k])
    ensures r.collection == old(MigrationsFor(AllMigrations(gorm.modules), Normalize(connection)))
    ensures forall m :: m in r.collection ==> m.connection == Normalize(connection)
    ensures r.db == gorm.maker(Normalize(connection))
  {
    var conn := connection;
    if conn == "" {
      conn := DefaultConnection;
    }
    ghost var all := AllMigrations(gorm.modules);
    ghost var norm := map m | m in all :: Normalize(m.connection);
    ghost var snapshot := MigrationConnections(all);
    assert forall k :: 0 <= k < |all| ==> norm[all[k]] == Normalize(snapshot[k]);
    MigrationsForSelect(all, norm, conn);
    var collection: seq<Migration> := [];
    ghost var seen: seq<Migration> := [];
    for i := 0 to |gorm.modules|
      invariant seen == AllMigrations(gorm.modules[..i])
      invariant forall m :: m in seen ==> m in all
      invariant collection == Select(seen, norm, conn)
      invariant MigrationsTracked(norm, Elements(seen))
    {
      var ms := ProvidedMigrations(gorm.modules[i]);
      AllMigrationsAt(gorm.modules, i);
      SelectAppend(seen, ms, norm, conn);
      ElementsAppend(seen, ms);
      collection := CollectMigrationsFrom(ms, conn, collection, norm, Elements(seen), Elements(all));
      seen := seen + ms;
    }
    assert gorm.modules[..|gorm.modules|] == gorm.modules;
    MigrationsSettled(all, norm, snapshot, conn);
    r := Migrations(collection, gorm.maker(conn));
  }

  // ---------------------------------------------------------------------------
  // Collecting seeds

  function ProvidedSeeds(p: Provider): seq<Seed>
  {
    match p.seeds
    case None => []
    case Some(ss) => ss
  }

  /** Every provider's seeds, concatenated in module order; other modules contribute nothing. */
  function AllSeeds(ps: seq<Provider>): seq<Seed>
  {
    if ps == [] then [] else AllSeeds(ps[..|ps| - 1]) + ProvidedSeeds(ps[|ps| - 1])
  }

  /** The seeds of the given modules followed by those of the next ones. */
  lemma {:induction false} AllSeedsAppend(a: seq<Provider>, b: seq<Provider>)
    ensures AllSeeds(a + b) == AllSeeds(a) + AllSeeds(b)
    decreases |b|
  {
    if b == [] {
      assert a + b == a;
    } else {
      var n := |b| - 1;
      assert (a + b)[..|a + b| - 1] == a + b[..n];
      assert (a + b)[|a + b| - 1] == b[n];
      AllSeedsAppend(a, b[..n]);
    }
  }

  /** A seed is provided iff some SeedProvider among the modules lists it. */
  lemma {:induction false} AllSeedsMembers(ps: seq<Provider>, s: Seed)
    ensures s in AllSeeds(ps) <==>
      exists i :: 0 <= i < |ps| && ps[i].seeds.Some? && s in ps[i].seeds.value
  {
    if ps != [] {
      var n := |ps| - 1;
      AllSeedsMembers(ps[..n], s);
      if s in ProvidedSeeds(ps[n]) {
        assert ps[n].seeds.Some? && s in ps[n].seeds.value;
      }
      if exists i :: 0 <= i < |ps| && ps[i].seeds.Some? && s in ps[i].seeds.value {
        var i :| 0 <= i < |ps| && ps[i].seeds.Some? && s in ps[i].seeds.value;
        if i < n {
          assert ps[..n][i] == ps[i];
        }
      }
    }
  }

  lemma AllSeedsSplit(ps: seq<Provider>, k: nat)
    requires k <= |ps|
    ensures AllSeeds(ps) == AllSeeds(ps[..k]) + AllSeeds(ps[k..])
  {
    AllSeedsAppend(ps[..k], ps[k..]);
    assert ps[..k] + ps[k..] == ps;
  }

  /** Where a provider's seeds sit among all of them: right after those of the modules before it. */
  lemma AllSeedsAt(ps: seq<Provider>, i: nat)
    requires i < |ps|
    ensures AllSeeds(ps[..i + 1]) == AllSeeds(ps[..i]) + ProvidedSeeds(ps[i])
    ensures forall s :: s in AllSeeds(ps[..i + 1]) ==> s in AllSeeds(ps)
  {
    assert ps[..i + 1][..i] == ps[..i];
    AllSeedsSplit(ps, i + 1);
  }

  /** The connections of the given seeds, in order. */
  function SeedConnections(ss: seq<Seed>): (r: seq<string>)
    reads ss
    ensures |r| == |ss|
    ensures forall k :: 0 <= k < |ss| ==> r[k] == ss[k].connection
  {
    if ss == [] then [] else SeedConnections(ss[..|ss| - 1]) + [ss[|ss| - 1].connection]
  }

  /** The seeds whose connection, read as a normalized name, is `conn`, in their order. */
  function SeedsFor(ss: seq<Seed>, conn: string): (r: seq<Seed>)
    reads ss
    ensures |r| <= |ss|
    ensures forall s :: s in r ==> s in ss && Normalize(s.connection) == conn
  {
    if ss == [] then []
    else
      var last := ss[|ss| - 1];
      SeedsFor(ss[..|ss| - 1], conn) + (if Normalize(last.connection) == conn then [last] else [])
  }

  /** A seed is collected iff it is provided and belongs to the connection. */
  lemma {:induction false} SeedsForMembers(ss: seq<Seed>, conn: string, s: Seed)
    ensures s in SeedsFor(ss, conn) <==> s in ss && Normalize(s.connection) == conn
  {
    if ss != [] {
      var n := |ss| - 1;
      SeedsForMembers(ss[..n], conn, s);
      assert ss == ss[..n] + [ss[n]];
    }
  }

  /** With the seeds' normalized connections recorded, the two filters agree. */
  lemma {:induction false} SeedsForSelect(ss: seq<Seed>, norm: map<Seed, string>, conn: string)
    requires forall s :: s in ss ==> s in norm && norm[s] == Normalize(s.connection)
    ensures SeedsFor(ss, conn) == Select(ss, norm, conn)
  {
    if ss != [] {
      SeedsForSelect(ss[..|ss| - 1], norm, conn);
    }
  }

  /**
   * During a collection: every recorded seed's connection still
   * normalizes to the recorded name, and those already visited hold it.
   */
  predicate SeedsTracked(norm: map<Seed, string>, visited: set<Seed>)
    reads norm.Keys
  {
    forall s {:trigger norm[s]} :: s in norm ==>
      Normalize(s.connection) == norm[s] && (s in visited ==> s.connection == norm[s])
  }

  /** At the end of a collection that visited every seed: each holds its normalized connection. */
  lemma SeedsSettled(all: seq<Seed>, norm: map<Seed, string>, snapshot: seq<string>, conn: string)
    requires |snapshot| == |all| && forall s :: s in all ==> s in norm
    requires forall k :: 0 <= k < |all| ==> norm[all[k]] == Normalize(snapshot[k])
    requires SeedsTracked(norm, Elements(all))
    ensures forall k :: 0 <= k < |all| ==> all[k].connection == Normalize(snapshot[k])
    ensures forall s :: s in Select(all, norm, conn) ==> s.connection == conn
  {
    forall k | 0 <= k < |all|
      ensures all[k].connection == Normalize(snapshot[k])
    {
      assert all[k] in Elements(all);
    }
    forall s | s in Select(all, norm, conn)
      ensures s.connection == conn
    {
      SelectMembers(all, norm, conn, s);
      assert s in Elements(all);
    }
  }

  /** One step of the inner loop: rewrite an empty connection and say whether `s` belongs to `conn`. */
  method VisitSeed(s: Seed, conn: string, ghost norm: map<Seed, string>, ghost visited: set<Seed>)
    returns (picked: bool)
    requires s in norm && SeedsTracked(norm, visited)
    modifies s
    ensures picked == (norm[s] == conn)
    ensures SeedsTracked(norm, visited + {s})
  {
    s.NormalizeConnection();
    picked := s.connection == conn;
  }

  /**
   * The inner loop of collectSeeds, over one provider's seeds,
   * appending to `collection0` those of `conn`. `norm` records every
   * provided seed's normalized connection, `done` the seeds
   * visited before.
   */
  method CollectSeedsFrom(ss: seq<Seed>, conn: string, collection0: seq<Seed>,
                               ghost norm: map<Seed, string>, ghost done: set<Seed>,
                               ghost footprint: set<Seed>)
    returns (collection: seq<Seed>)
    requires forall s :: s in ss ==> s in norm && s in footprint
    requires SeedsTracked(norm, done)
    modifies footprint
    ensures collection == collection0 + Select(ss, norm, conn)
    ensures SeedsTracked(norm, done + Elements(ss))
  {
    collection := collection0;
    ghost var visited := done;
    for j := 0 to |ss|
      invariant collection == collection0 + Select(ss[..j], norm, conn)
      invariant visited == done + Elements(ss[..j])
      invariant SeedsTracked(norm, visited)
    {
      var s := ss[j];
      SelectAt(ss, j, norm, conn);
      var picked := VisitSeed(s, conn, norm, visited);
      if picked {
        collection := collection + [s];
      }
      visited := visited + {s};
      ElementsAt(ss, j);
    }
    assert ss[..|ss|] == ss;
  }

  /** Seeds: the collection to run, the module's logger and the handle of their database. */
  datatype Seeds = Seeds(collection: seq<Seed>, logger: Handle, db: Option<Handle>)

  /**
   * collectSeeds: every provided seed with an empty connection is
   * rewritten to the default, collected or not; the collection is, in module
   * and list order, the provided seeds of the normalized connection;
   * the seeds carry the module's logger, and the handle is the maker's for
   * that connection, a failure giving none.
   */
  method CollectSeeds(gorm: Module, connection: string) returns (r: Seeds)
    modifies Elements(AllSeeds(gorm.modules))
    ensures var all := AllSeeds(gorm.modules);
      forall k :: 0 <= k < |all| ==> all[k].connection == Normalize(old(SeedConnections(all))[k])
    ensures r.collection == old(SeedsFor(AllSeeds(gorm.modules), Normalize(connection)))
    ensures forall s :: s in r.collection ==> s.connection == Normalize(connection)
    ensures r.logger == gorm.logger && r.db == gorm.maker(Normalize(connection))
  {
    var conn := connection;
    if conn == "" {
      conn := DefaultConnection;
    }
    ghost var all := AllSeeds(gorm.modules);
    ghost var norm := map s | s in all :: Normalize(s.connection);
    ghost var snapshot := SeedConnections(all);
    assert forall k :: 0 <= k < |all| ==> norm[all[k]] == Normalize(snapshot[k]);
    SeedsForSelect(all, norm, conn);
    var collection: seq<Seed> := [];
    ghost var seen: seq<Seed> := [];
    for i := 0 to |gorm.modules|
      invariant seen == AllSeeds(gorm.modules[..i])
      invariant forall s :: s in seen ==> s in all
      invariant collection == Select(seen, norm, conn)
      invariant SeedsTracked(norm, Elements(seen))
    {
      var ss := ProvidedSeeds(gorm.modules[i]);
      AllSeedsAt(gorm.modules, i);
      SelectAppend(seen, ss, norm, conn);
      ElementsAppend(seen, ss);
      collection := CollectSeedsFrom(ss, conn, collection, norm, Elements(seen), Elements(all));
      seen := seen + ss;
    }
    assert gorm.modules[..|gorm.modules|] == gorm.modules;
    SeedsSettled(all, norm, snapshot, conn);
    r := Seeds(collection, gorm.logger, gorm.maker(conn));
  }
}
