/**
 * The `database migrate` and `database seed` commands of the gorm module
 * (otgorm/module.go): choose the connection, refuse to run in production
 * without the force flag, collect, then run the rollback, the migrations or
 * the seeds. Running them is an effect appended to a trace; what the
 * migration library reports is a parameter (`None` for success).
 */
module GormCommand {
  import opened Wrappers
  import opened Gorm

  /** What the commands do outside the model, in the order they do it. */
  datatype Effect =
    | RanMigrate(migrations: Migrations)
    | RanRollback(migrations: Migrations, id: string)
    | RanSeed(seeds: Seeds)
    | LoggedInfo(message: string)

  /** The errors the commands return. */
  datatype CommandError =
    | ForceRequired(message: string)
    | RollbackFailed(cause: string)
    | MigrateFailed(cause: string)
    | SeedFailed(cause: string)

  const MigrateForceMessage: string := "migrations and rollback in production requires force flag to be set"
  const SeedForceMessage: string := "seeding in production requires force flag to be set"
  const RollbackDone: string := "rollback successfully completed"
  const MigrateDone: string := "migration successfully completed"
  const SeedDone: string := "seeding successfully completed"

  /** Both commands refuse to touch a production database unless forced. */
  predicate Refused(gorm: Module, force: bool)
  {
    gorm.production && !force
  }

  /**
   * RunE of `database migrate [database]`. A non-empty `rollbackId` (the
   * `--rollback` flag) rolls back to that migration instead of migrating;
   * `outcome` is the error the library's Rollback or Migrate reports.
   */
  method RunMigrate(gorm: Module, args: seq<string>, force: bool, rollbackId: string, outcome: Option<string>)
    returns (err: Option<CommandError>, trace: seq<Effect>)
    modifies Elements(AllMigrations(gorm.modules))
    ensures Refused(gorm, force) ==>
      && err == Some(ForceRequired(MigrateForceMessage)) && trace == []
      && unchanged(Elements(AllMigrations(gorm.modules)))
    ensures !Refused(gorm, force) ==>
      var conn := Normalize(ConnectionFromArgs(args));
      var all := AllMigrations(gorm.modules);
      && (forall k :: 0 <= k < |all| ==> all[k].connection == Normalize(old(MigrationConnections(all))[k]))
      && |trace| >= 1
      && (rollbackId != "" ==> trace[0].RanRollback? && trace[0].id == rollbackId)
      && (rollbackId == "" ==> trace[0].RanMigrate?)
      && trace[0].migrations.collection == old(MigrationsFor(all, conn))
      && (forall m :: m in trace[0].migrations.collection ==> m.connection == conn)
      && trace[0].migrations.db == gorm.maker(conn)
      && (outcome.Some? ==>
            && trace == [trace[0]]
            && err == Some(if rollbackId != "" then RollbackFailed(outcome.value) else MigrateFailed(outcome.value)))
      && (outcome.None? ==>
            && err == None
            && trace == [trace[0], LoggedInfo(if rollbackId != "" then RollbackDone else MigrateDone)])
  {
    var connection := ConnectionFromArgs(args);
    if gorm.production && !force {
      return Some(ForceRequired(MigrateForceMessage)), [];
    }
    var migrations := CollectMigrations(gorm, connection);
    if rollbackId != "" {
      trace := [RanRollback(migrations, rollbackId)];
      if outcome.Some? {
        return Some(RollbackFailed(outcome.value)), trace;
      }
      return None, trace + [LoggedInfo(RollbackDone)];
    }
    trace := [RanMigrate(migrations)];
    if outcome.Some? {
      return Some(MigrateFailed(outcome.value)), trace;
    }
    err, trace := None, trace + [LoggedInfo(MigrateDone)];
  }

  /**
   * RunE of `database seed [database]`; `outcome` is the error the library's
   * Seed reports.
   */
  method RunSeed(gorm: Module, args: seq<string>, force: bool, outcome: Option<string>)
    returns (err: Option<CommandError>, trace: seq<Effect>)
    modifies Elements(AllSeeds(gorm.modules))
    ensures Refused(gorm, force) ==>
      && err == Some(ForceRequired(SeedForceMessage)) && trace == []
      && unchanged(Elements(AllSeeds(gorm.modules)))
    ensures !Refused(gorm, force) ==>
      var conn := Normalize(ConnectionFromArgs(args));
      var all := AllSeeds(gorm.modules);
      && (forall k :: 0 <= k < |all| ==> all[k].connection == Normalize(old(SeedConnections(all))[k]))
      && |trace| >= 1 && trace[0].RanSeed?
      && trace[0].seeds.collection == old(SeedsFor(all, conn))
      && (forall s :: s in trace[0].seeds.collection ==> s.connection == conn)
      && trace[0].seeds.logger == gorm.logger && trace[0].seeds.db == gorm.maker(conn)
      && (outcome.Some? ==> trace == [trace[0]] && err == Some(SeedFailed(outcome.value)))
      && (outcome.None? ==> trace == [trace[0], LoggedInfo(SeedDone)] && err == None)
  {
    var connection := ConnectionFromArgs(args);
    if gorm.production && !force {
      return Some(ForceRequired(SeedForceMessage)), [];
    }
    var seeds := CollectSeeds(gorm, connection);
    trace := [RanSeed(seeds)];
    if outcome.Some? {
      return Some(SeedFailed(outcome.value)), trace;
    }
    err, trace := None, trace + [LoggedInfo(SeedDone)];
  }
}
