# Config export, gorm migrations and leader-driver wiring

This project models three sequential pieces of a Go service framework in Dafny and proves properties about them:

- **Config export** (`pkg/config/module.go`). The `exportConfig` command picks an output handler (`json` or `yaml`) by style name. It collects the configs every module exports and keeps only those named by the command's arguments. It then opens the output file, reads and decodes what is already there, and writes the configs:
  - the YAML handler appends each config none of whose keys the file already has;
  - the JSON handler folds the configs into the decoded map and re-encodes it at the start of the file.

  The config module's own five defaults are modelled too. Modules: `ConfigExport` (pure decisions), `ConfigFile` (the file object and both handlers' `write`) and `ConfigCommand` (the command's `RunE`).
- **Gorm migrations and seeds** (`otgorm/module.go`). The module's settings, with the 15-second metrics interval default. `collectMigrations` and `collectSeeds` rewrite empty connections to `"default"` through the pointers they are given, then filter the provided migrations or seeds by connection. The `database migrate` and `database seed` commands refuse to run in production without `--force`, then run a rollback, the migrations or the seeds. Modules: `Gorm` and `GormCommand`.
- **Leader election wiring** (`leader/dependency.go`). `determineDriver` chooses the election driver: an injected one wins; otherwise it reads the `leader` config section, defaults the etcd name and makes the etcd client. Also modelled: `provide`, the run-group actor and interrupt, and the exported default `leader` section. Module: `Leader`.

Modelling choices:
- File bytes are character sequences.
- The YAML/JSON codecs, the config accessor, the etcd and database makers, and the migration library's outcome are parameters: function values or `Option`/`Result` values.
- A file is a `class` with its content, its offset, the append flag chosen at open, and a quota of characters the device still accepts. A write longer than the quota fails and writes nothing.
- Migrations and seeds are classes, because the collectors overwrite their connection in place.
- Effects the commands cause (migrate, rollback, seed, info log) are returned as a trace.
- Go's nil maps and nil interfaces are `Option.None`.

## Model

| member | source | states |
|---|---|---|
| ConfigExport.GetHandler | pkg/config/module.go:158-167 | "json" selects the JSON handler and "yaml" the YAML handler, each iff the style is that name; any other style is an "unsupported config style" error naming it and gives no handler |
| ConfigExport.GetHandlerStyleName | pkg/config/module.go:158-167 | each handler is selected by exactly its own style name |
| ConfigExport.Flags | pkg/config/module.go:172-174 | both handlers open with create and read-write; only the YAML handler also appends |
| ConfigExport.ProvideConfig | pkg/config/module.go:34-76 | exactly five defaults; each default's data has the single key equal to its name; every default carries a comment |
| ConfigExport.ProvideConfigNames | pkg/config/module.go:34-76 | the defaults are, in order, `name`, `version`, `env`, `http`, `grpc` |
| ConfigExport.ProvideConfigDistinct | pkg/config/module.go:34-76 | no two defaults share a name |
| ConfigExport.ExportedMembers | pkg/config/module.go:104-106 | a config is exported iff some module that is a Provider lists it; other modules contribute nothing |
| ConfigExport.FilterByArgs | pkg/config/module.go:107-118 | the nested argument loop with `break` yields the whole input when there are no arguments, else the order-preserving selection of configs whose name is an argument |
| ConfigExport.MatchingMembers | pkg/config/module.go:107-118 | a config is kept iff it is in the input and its name equals some argument |
| ConfigExport.MatchingCount | pkg/config/module.go:109-115 | a repeated argument never duplicates a config: each kept config occurs exactly as often as in the input |
| ConfigExport.MatchingAppend | pkg/config/module.go:109-117 | selection distributes over concatenation, so the input order is kept |
| ConfigExport.SelectByArgSet | pkg/config/module.go:107-118 | only the set of arguments matters, not their order or repetition |
| ConfigExport.YamlPlanMembers | pkg/config/module.go:181-187 | the YAML handler emits a config iff it is in the input and none of its data keys is a key of confMap |
| ConfigExport.YamlPlanAppend | pkg/config/module.go:181-187 | confMap is never updated, so the decision for one config does not depend on the configs before it; two new configs sharing a key are both emitted |
| ConfigExport.SegmentsText | pkg/config/module.go:192-205 | one emitted config is a `"# "+Comment` line only when the comment is non-empty, then the marshalled data, then a newline |
| ConfigExport.JsonUnmarshal | pkg/config/module.go:223-228 | empty input gives no error and leaves the target as it was; other input is decoded |
| ConfigExport.MergeKeepsKeys | pkg/config/module.go:234-241 | the JSON merge never deletes a key |
| ConfigExport.MergeKeysFrom | pkg/config/module.go:234-241 | every key of the merged map was already present or comes from some config's data |
| ConfigExport.MergeSkipsNamed | pkg/config/module.go:235-237 | a config whose name is already a key contributes nothing |
| ConfigExport.MergeCopiesData | pkg/config/module.go:238-240 | otherwise all its data entries are copied in, overwriting equal keys, and every other key keeps its value |
| ConfigFile.File.Open | pkg/config/module.go:120-124 | opening fails unless the file is openable and either exists or the create flag is given; a created file is empty; the offset starts at 0 and append mode follows the flags |
| ConfigFile.File.ReadAll | pkg/config/module.go:126-129 | reading yields everything from the offset and moves the offset to the end, or fails and changes nothing |
| ConfigFile.File.Write | pkg/config/module.go:198-201 | a write lands at the end in append mode and at the offset otherwise; it writes all of its text or, when there is no room, nothing |
| ConfigFile.HasExistingKey | pkg/config/module.go:183-187 | the inner key loop reports a clash iff some data key of the config is a key of confMap |
| ConfigFile.YamlWrite | pkg/config/module.go:180-208 | the file receives, at its write position, exactly the text of the planned configs in order, up to the first marshal or write failure, and that failure is returned |
| ConfigFile.YamlOutcomePrefix | pkg/config/module.go:188-206 | what the YAML handler writes is always a prefix of the full intended text: nothing is written after the first failure |
| ConfigFile.YamlOutcomeSuccess | pkg/config/module.go:188-207 | the YAML handler succeeds iff every planned config marshals and the whole text fits; then it writes exactly the intended text |
| ConfigFile.CopyInto | pkg/config/module.go:238-240 | the inner copy loop sets every data key to its data value, overriding the map's |
| ConfigFile.MergeInto | pkg/config/module.go:231-241 | the merge loop treats a nil confMap as empty and computes the fold of the configs into it |
| ConfigFile.JsonWriteAsWritten | pkg/config/module.go:230-247 | as written: merge, seek to 0 and encode over the old content without truncating; an encode error leaves the file as it was |
| ConfigFile.JsonRewriteCounterexample | pkg/config/module.go:242-246 | a concrete existing file and config for which the rewrite leaves a stray `}` after the new encoding |
| ConfigFile.JsonWrite | pkg/config/module.go:230-247 | corrected: on success the file holds exactly the encoded merge and a newline; an encode error leaves the file alone |
| ConfigCommand.WriteConfigs | pkg/config/module.go:134-137 | YAML output is appended to the file's old content; JSON output replaces it; write failures are wrapped |
| ConfigCommand.RunExport | pkg/config/module.go:92-139 | bad style fails before the file is touched; the open, read, unmarshal and write errors are each reported as their own error; the written text is computed from the argument-selected exported configs and the decoded old content |
| Gorm.Normalize | otgorm/module.go:145-147 | the empty connection name becomes "default"; every other name is kept; the result is never empty |
| Gorm.ConnectionFromArgs | otgorm/module.go:75-78 | the first argument when there is one, else "default" |
| Gorm.New | otgorm/module.go:51-61 | the interval is the 15-second default unless the configuration overrides it; the other settings are copied |
| Gorm.Migration.NormalizeConnection | otgorm/module.go:153-155 | rewrites an empty connection to "default" in place |
| Gorm.Seed.NormalizeConnection | otgorm/module.go:176-178 | rewrites an empty connection to "default" in place |
| Gorm.AllMigrationsMembers | otgorm/module.go:150-152 | a migration is considered iff some module that is a MigrationProvider lists it; other modules contribute nothing |
| Gorm.MigrationsForMembers | otgorm/module.go:153-158 | a migration is collected iff it is provided and its connection, read with the default for "", is the requested one |
| Gorm.CollectMigrationsFrom | otgorm/module.go:152-159 | the inner loop appends, in order, this provider's migrations of the connection, and leaves each one it visits normalized |
| Gorm.CollectMigrations | otgorm/module.go:144-165 | every provided migration's connection is normalized in place, collected or not; the collection is the order-preserving filter of all providers' migrations on the normalized connection, each holding that connection; the handle is the maker's for that connection, a failure giving none |
| Gorm.AllSeedsMembers | otgorm/module.go:173-175 | a seed is considered iff some module that is a SeedProvider lists it; other modules contribute nothing |
| Gorm.SeedsForMembers | otgorm/module.go:176-181 | a seed is collected iff it is provided and its connection, read with the default for "", is the requested one |
| Gorm.CollectSeedsFrom | otgorm/module.go:175-182 | the inner loop appends, in order, this provider's seeds of the connection, and leaves each one it visits normalized |
| Gorm.CollectSeeds | otgorm/module.go:167-188 | as for migrations, and the seeds also carry the module's logger |
| GormCommand.RunMigrate | otgorm/module.go:74-102 | in production without force: the force error, no effect, and no migration touched; otherwise, with a non-empty rollback id, only a rollback with that id runs, and with an empty one only a migrate runs; either runs on the collected migrations of the normalized connection; the library's failure is wrapped, and success logs its message |
| GormCommand.RunSeed | otgorm/module.go:112-130 | in production without force: the force error and nothing touched; otherwise exactly one seed run on the collected seeds, then either the wrapped failure or the success log |
| Leader.EtcdName | leader/dependency.go:86-88 | an empty etcd name becomes "default"; any other is kept |
| Leader.Decide | leader/dependency.go:80-99 | an injected driver wins and nothing is consulted; otherwise the config is read first, and the result is a configuration error iff that read fails; with no maker the result is the no-driver-source error; a failed make is an error naming the etcd name; a successful make always gives the etcd driver over the made client and the key (AppName, Env) |
| Leader.DetermineDriver | leader/dependency.go:80-99 | updates the driver through the pointer as Decide says; an injected driver is left unchanged, and on every error the driver stays nil |
| Leader.Provide | leader/dependency.go:51-60 | works on a copy of its input; on a driver error returns the empty out and that error; else a fresh Election over the dispatcher and the determined driver, and that Election's own status |
| Leader.Actor | leader/dependency.go:67-73 | campaigns once; a campaign error is returned at once, without waiting; otherwise it waits for cancellation and returns nil; nothing else happens |
| Leader.Interrupt | leader/dependency.go:74-77 | exactly a resign, then a cancel |
| Leader.ProvideConfig | leader/dependency.go:107-119 | one exported config, owned by `leader`, whose data is the single `leader` section |
| Leader.ExportedDefaultAgrees | leader/dependency.go:86-88 | the exported default `etcdName` is "default", and driver selection behaves the same with it as with an empty name |

## Findings

| source | as written | input that shows it | evidently intended | confidence | as-written member | corrected member |
|---|---|---|---|---|---|---|
| pkg/config/module.go:242-246 | the JSON handler opens without truncation, seeks to 0 and encodes over the old file content | existing file `{"x": "long"}` (pretty-printed) and a config named `y` with data `x: "b"`; the shorter new encoding leaves the old text's tail, a stray `}`, after it | the file holds exactly the new encoding | medium, not executed | ConfigFile.JsonWriteAsWritten | ConfigFile.JsonWrite |

## Left out

- The Election and Status state machine and the etcd driver are not part of this model. `NewElection` is reduced to a fresh Election holding its dispatcher, its driver and a fresh Status. Campaign and Resign are steps named in a trace.
- Leader.Actor and Leader.Interrupt model the two closures separately. The run group's scheduling (an interrupt runs once any actor returns) and the blocking on `ctx.Done()` belong to the run-group library and to concurrency, which are not modelled.
- otgorm/dependency.go is not part of this model: it opens real database connections, runs a ticker loop and copies fields into library structs.
- File-system and codec calls are parameters: `os.MkdirAll` (its result is ignored), `Close`, `yaml.Marshal`/`Unmarshal`, `json.Unmarshal` and the JSON encoder. A write failure is modelled only as running out of room.
- Error messages built with `errors.Wrap`/`fmt.Errorf` are datatype constructors, not formatted strings. Most carry the cause and any named value. The exceptions are the two force-flag messages and the three success log lines, which are kept verbatim.
- Open and read failures of the output file are the File's `openable` and `readable` flags. Their OS causes are not modelled, so OpenFailed and ReadFailed carry no cause.
- A configuration value is a string or a string-keyed map of values. Numbers, booleans, arrays and `null` in a decoded output file are not represented. The skip and merge decisions read only keys, so they are unaffected.
- cobra command and flag registration are not modelled: the `outputFile`/`style` defaults, the `--force` flag, and `--rollback` with its no-value default `-1`. The flag values are parameters.
- The config module's `ProvideRunGroup` is not modelled: it only starts a file watcher.
- The internals of `Migrations.Migrate`, `Migrations.Rollback` and `Seeds.Seed` are not modelled. Each run is recorded in a trace, and its error is a parameter.
- `logging.WithLevel` is not modelled: info logging is a trace entry.
- ConfigCommand.WriteConfigs and ConfigCommand.RunExport use the corrected JSON write (ConfigFile.JsonWrite), not the as-written one.
- `time.Duration` is an unbounded integer of nanoseconds; its 64-bit range is not modelled.
