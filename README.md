# ecosystems-packages: registry sync, Bower adapter, package API rules

A Dafny model of three parts of the package index:

- **The per-registry sync engine** (`app/models/registry.rb`). It covers which names a run syncs (all, missing, recently updated), the rescuing batch loop, and the payload of the asynchronous batch. It also covers the incremental sync of one package:
  1. fetch the canonical record and the version list;
  2. upsert the package row;
  3. compute the version delta against the stored numbers;
  4. insert the delta in slices of 100;
  5. fetch and insert dependencies, only when some version was inserted;
  6. stamp `last_synced_at` and `versions_count`.

  Finally it covers the memoised ecosystem adapter.
- **The Bower reference adapter** (`app/models/ecosystem/bower.rb`). It builds a memoised, case-folded index of the registry list, looks names up case-insensitively, and maps an entry to the canonical shape, enriched from the project's `bower.json` when it can be found.
- **The decision rules of the package API** (`app/controllers/api/v1/packages_controller.rb`):
  - the docker default namespace;
  - the miss-then-sync rule of `lookup`;
  - the fallback chain of `show`;
  - the branch of `ping`;
  - the ordering chosen from `sort` and `order`.

## Files and modules

| file | module | contents |
|---|---|---|
| `values.dfy` | `Values` | Option, Attempt (raised or returned), JSON-like values and records, A–Z downcasing |
| `registry.dfy` | `RegistrySync` | the upstream adapter as data, the store, `sync_package` as the function `SyncSpec`, the store invariant, `sync_packages` as `SyncAll`, and the lemmas |
| `registry_object.dfy` | `Registries` | `class Registry`: its rows are fields; `SyncPackage`, `SyncPackages` and the wrappers are methods with loops, proved equal to `SyncSpec` and `SyncAll` |
| `bower.dfy` | `Bower` | the index as a function and as the memoising method `BowerAdapter.Packages`, lookup, `map_package_metadata`, `load_bower_json`, `install_command` |
| `packages_controller.dfy` | `PackagesController` | parameters, `SortOrder`, the docker rewrite, `Lookup`, `Show`, `Ping` |

### How the model is built

**Exceptions.** An exception is `Attempt.Raised`. A sync that raises is `SyncOutcome.Failed`: it leaves the store as it was and is logged by `SyncAll`.

**Adapter calls.** What the adapter's network calls answer at one moment is the `Adapter` datatype: total functions, one per call. The adapter object itself, the `Upstream` type, maps a time to what its calls answer then. `@ecosystem_instance` memoises the object and not its answers, so a later sync on the same registry sees what the network answers at that later time, and a dependency fetch that failed can succeed there. Each yields an `Attempt`, and so do the two name lists: Bower's `all_package_names` raises when its index cannot be built. The wrappers on registry.rb:45-67 read the list outside the rescuing loop, so a list that raises makes the whole run raise with no package synced.

**Bower's download.** `BowerAdapter.Packages` receives what `get` (bower.rb:19) returned, as an `Attempt`. A download that raised makes `packages` raise and memoises nothing.

**Lookup's calls.** `Lookup` receives the scope evaluation `run` and the purl parse `purlTarget` as functions yielding `Attempt`s. `run` raises where `lookup_by_purl` or the query raises. `purlTarget` raises where `PackageURL.parse` raises.

**Time.** `Time.now` is a parameter, one per `sync_package` call. A batch receives one timestamp per name, and the wrappers receive the time at which they read the name list.

**Database rows.** Version rows are keyed by (package, number), so `Version.insert_all` is an insert-if-absent on the number. `Dependency.insert_all` appends every row it is given.

**Behaviour that follows the code.**
- The dependency pass runs only when the sync inserted at least one version (registry.rb:107). `DependencyFetchRetried` states that a version whose dependency fetch raised or returned nothing is fetched again only by a later sync that inserts some version.
- In `show`, pypi passes the id unchanged to `find_by_normalized_name!`. The normalisation happens inside that finder, which is not part of this model.
- In `lookup`, an empty result with a present `purl` enqueues the purl's package even when the scope came from `repository_url`, because the purl test comes first on line 52.

## Model

| member | source | states |
|---|---|---|
| RegistrySync.MissingPackageNames | app/models/registry.rb:41-43 | a name is returned iff it is upstream and not stored; each returned name keeps its upstream multiplicity; stored names never appear; upstream order is kept |
| RegistrySync.RecentlyUpdatedPackageNames | app/models/registry.rb:33-35 | the result is the first min(n, 100) names of the feed |
| RegistrySync.AsyncPayload | app/models/registry.rb:80-82 | one [registry id, name] job per name, in order |
| RegistrySync.EachSlice | app/models/registry.rb:108-110 | slices concatenate back to the input; every slice is non-empty and at most 100 long; all but the last are exactly 100; there is no slice iff the input is empty |
| RegistrySync.PackageAttributes | app/models/registry.rb:93-96 | the package columns are the canonical keys minus the nine excluded keys, with their values |
| RegistrySync.WithEcosystem | app/models/registry.rb:88 | sets the canonical record's ecosystem to the registry's downcased ecosystem; characterised by `SyncSpec`, whose version fetch is made with the record it returns |
| RegistrySync.Upsert | app/models/registry.rb:91-98 | every canonical column is written; an existing row keeps its sync time, its count and its other columns, and gains no column beyond the old ones and the canonical ones; a new row starts unsynced with count 0 |
| RegistrySync.Row | app/models/registry.rb:103-104 | an upstream version as a row stamped with the time; characterised by `Delta` and `DeltaNumbers` |
| RegistrySync.Delta | app/models/registry.rb:100-105 | every upstream version whose number is not stored becomes a row stamped now; every row has an unstored number and comes from the upstream list |
| RegistrySync.InsertVersion | app/models/registry.rb:108-110 | insert-if-absent of one row on its number; characterised by `InsertVersions` |
| RegistrySync.InsertVersions | app/models/registry.rb:108-110 | stored rows are kept as a prefix; the numbers after are the union of the numbers before and the new rows' numbers; distinct numbers stay distinct; nothing else appears |
| RegistrySync.Tag | app/models/registry.rb:126-128 | each dependency becomes one row tagged with its version, in order |
| RegistrySync.PendingDependencies | app/models/registry.rb:112-129 | the dependency rows collected over the package's versions; characterised by `PendingDependenciesFor` and `PendingDependenciesStep` |
| RegistrySync.InsertDependencies | app/models/registry.rb:131-133 | appends each row to its version's rows; characterised by `InsertDependenciesAt` and `InsertDependenciesKeys` |
| RegistrySync.Persist | app/models/registry.rb:91-140 | what a sync does once both fetches succeeded; characterised by `PersistPreservesValid`, `PersistAgain`, `SyncVersions` and `SyncDependencies` |
| RegistrySync.SyncSpec | app/models/registry.rb:84-143 | not found iff the upstream has no record; failed iff the metadata fetch or the versions fetch raised; a sync that does not succeed leaves the store unchanged; a successful sync stamps `last_synced_at`, stores the package under its canonical name and leaves every other package as it was |
| RegistrySync.DeltaEmpty | app/models/registry.rb:100-107 | the delta is empty iff every upstream number is already stored |
| RegistrySync.DeltaNumbers | app/models/registry.rb:100-105 | the delta's numbers are exactly the upstream numbers not yet stored |
| RegistrySync.PendingDependenciesFor | app/models/registry.rb:112-129 | the dependency pass adds to each version without rows exactly what its fetch returned (nothing if the fetch raised); it adds nothing to a version that has rows or belongs to another package |
| RegistrySync.PendingDependenciesStep | app/models/registry.rb:112-129 | one more version adds exactly that version's fetched rows, or none when it has rows, its fetch raised or returned nothing |
| RegistrySync.InsertDependenciesAt | app/models/registry.rb:131-133 | inserting appends to each version's rows exactly the rows tagged with it |
| RegistrySync.InsertDependenciesKeys | app/models/registry.rb:131-133 | afterwards a version has rows only if it had rows before or some inserted row is tagged with it |
| RegistrySync.DependenciesAfterDelta | app/models/registry.rb:112-133 | after the dependency pass, a version of the package that is stored gets its fetched rows appended; every other version keeps its rows |
| RegistrySync.VersionsAfterDelta | app/models/registry.rb:100-110 | after inserting the delta the old rows are a prefix, the numbers are the old ones together with the upstream ones, and other packages are untouched |
| RegistrySync.SyncDependencies | app/models/registry.rb:107-134 | after a sync, a version of the package gets what its fetch returned, only when it had no rows and the sync inserted a version; every other version's rows are unchanged |
| RegistrySync.SyncVersions | app/models/registry.rb:100-110 | after a sync the old version rows are a prefix of the new ones; the stored numbers are the old numbers together with every upstream number; other packages' versions are unchanged |
| RegistrySync.PersistPreservesValid | app/models/registry.rb:91-140 | the store invariant holds after persisting: rows keyed by name, versions belong to stored packages, distinct version numbers, `versions_count` equal to the number of versions, dependency rows belong to stored versions |
| RegistrySync.SyncPreservesValid | app/models/registry.rb:84-143 | every sync keeps the store invariant |
| RegistrySync.SyncedRow | app/models/registry.rb:91-140 | a successful sync's package row is the upserted row (the canonical columns over the old row, or a new row) stamped with the time, and its `versions_count` is the number of the package's stored versions |
| RegistrySync.PersistAgain | app/models/registry.rb:100-140 | once every upstream number is stored and the columns match, persisting again only moves `last_synced_at` |
| RegistrySync.SyncIdempotent | app/models/registry.rb:84-143 | a second sync against the same upstream inserts no version and no dependency row, succeeds iff the first did, and changes only `last_synced_at` |
| RegistrySync.DependencyFetchRetried | app/models/registry.rb:115-129 | a version whose dependency fetch raised or returned nothing keeps no rows; a later sync that inserts no version leaves it without rows; a later sync that inserts some version stores what the new fetch returns |
| RegistrySync.Run | app/models/registry.rb:69-78 | the rescuing loop over a batch with any step; characterised by `RunPreservesValid`, `RunLogsOnlyItsNames` and `RunSkipsFailing` |
| RegistrySync.RunPreservesValid | app/models/registry.rb:69-78 | a loop whose every step keeps the store invariant keeps it over the whole batch |
| RegistrySync.RunLogsOnlyItsNames | app/models/registry.rb:69-78 | the loop logs only names from its batch |
| RegistrySync.RunSkipsFailing | app/models/registry.rb:69-78 | a name whose step fails without a change is logged, and the loop ends in the store of the batch without it |
| RegistrySync.SyncAll | app/models/registry.rb:69-78 | the loop with `SyncSpec` as its step, the i-th name synced with the adapter's answers at its time; characterised by `SyncAllPreservesValid`, `SyncAllLogsOnlyItsNames` and `RaisingNameIsSkipped` |
| RegistrySync.SyncAllPreservesValid | app/models/registry.rb:69-78 | a batch of syncs keeps the store invariant |
| RegistrySync.SyncAllLogsOnlyItsNames | app/models/registry.rb:69-78 | every name logged as failing is one of the batch's names |
| RegistrySync.RaisingNameIsSkipped | app/models/registry.rb:69-78 | a name whose fetch raises when it is synced is logged; the batch ends in the same store as the batch without that name, so the later names are still synced |
| RegistrySync.BatchScenario | app/models/registry.rb:69-78 | for the batch a, b, c where b raises when it is synced: the result is a then c synced, each with the answers of its own time, with only b logged |
| RegistrySync.EndToEndFirstSync | app/models/registry.rb:84-143 | a first sync of a package reporting 1.0.0 with no dependencies stores one version with no dependency rows and a count of 1 |
| RegistrySync.EndToEndSecondVersions | app/models/registry.rb:100-110 | against a store holding 1.0.0, the delta of 1.0.0 and 2.0.0 is 2.0.0 alone, appended after 1.0.0 |
| RegistrySync.EndToEndSecondDependencies | app/models/registry.rb:112-133 | the dependency pass over 1.0.0 and 2.0.0 stores bar for 2.0.0 and nothing for 1.0.0 |
| RegistrySync.EndToEndSecondSync | app/models/registry.rb:84-143 | on any store holding 1.0.0 without dependency rows, the second sync leaves 1.0.0 and 2.0.0, bar for 2.0.0 only, and a count of 2 |
| RegistrySync.EndToEndScenario | app/models/registry.rb:84-143 | a second sync that brings 2.0.0, which depends on bar, stores 1.0.0 and 2.0.0 in that order, gives 2.0.0 its one dependency, leaves 1.0.0 with none and sets the count to 2 |
| Registries.Memo | app/models/registry.rb:149-151 | the memoised adapter object if there is one, else the one just built |
| Registries.MemoStable | app/models/registry.rb:149-151 | once memoised, the adapter object no longer depends on what would be built |
| Registries.Registry.Load | app/models/registry.rb:1-7 | a registry loaded with any rows that keep the store invariant starts with those rows, no adapter built, and the invariant |
| Registries.Registry.EcosystemInstance | app/models/registry.rb:149-151 | returns the memoised adapter object or memoises the built one; the rows are unchanged |
| Registries.Registry.ExistingPackageNames | app/models/registry.rb:37-39 | under the invariant, a name is listed iff some stored package has that name |
| Registries.Registry.AllPackageNames | app/models/registry.rb:29-31 | the memoised adapter's full name list as it answers at the given time, raising when that list raises; the adapter is memoised and the rows unchanged |
| Registries.Registry.RecentNames | app/models/registry.rb:33-35 | the first 100 of the memoised adapter's recently updated names at the given time; raises when that list raises |
| Registries.Registry.MissingNames | app/models/registry.rb:41-43 | upstream names minus the stored names, without changing the rows; raises when the upstream list raises |
| Registries.Registry.NewVersions | app/models/registry.rb:100-105 | the loop computes the version delta |
| Registries.Registry.InsertVersionBatches | app/models/registry.rb:108-110 | inserting slice by slice stores the same rows as inserting the delta at once; packages and dependencies are unchanged |
| Registries.Registry.CollectDependencies | app/models/registry.rb:112-129 | the loop collects the dependency rows of the pending versions |
| Registries.Registry.InsertDependencyBatches | app/models/registry.rb:131-133 | inserting slice by slice appends every collected row; packages and versions are unchanged |
| Registries.Registry.SaveVersions | app/models/registry.rb:107-140 | with a non-empty delta: versions inserted, dependencies inserted, and the package stamped with the new count |
| Registries.Registry.Save | app/models/registry.rb:91-142 | the new rows and the outcome are those of persisting the fetched record and versions |
| Registries.Registry.SyncPackage | app/models/registry.rb:84-143 | the new rows and the outcome are exactly `SyncSpec` of the old rows with what the memoised adapter answers at the sync's time; the adapter is memoised; the store invariant is kept |
| Registries.Registry.SyncPackages | app/models/registry.rb:69-78 | the new rows and the logged names are exactly `SyncAll` of the old rows with the memoised adapter; the invariant is kept; a non-empty batch memoises the adapter, an empty one leaves `instance` as it was |
| Registries.Registry.SyncAllPackages | app/models/registry.rb:45-47 | raises with the rows unchanged when the upstream list raises; otherwise the rows and the logged names are `SyncAll` over every upstream name; the adapter is memoised |
| Registries.Registry.SyncMissingPackages | app/models/registry.rb:49-51 | raises with the rows unchanged when the upstream list raises; otherwise `SyncAll` over the names that were missing before the run; the adapter is memoised |
| Registries.Registry.SyncRecentlyUpdatedPackages | app/models/registry.rb:53-55 | raises with the rows unchanged when the recent list raises; otherwise `SyncAll` over its first 100 names; the adapter is memoised |
| Registries.Registry.SyncPackagesAsync | app/models/registry.rb:80-82 | one job per name, carrying this registry's id |
| Registries.Registry.SyncAllPackagesAsync | app/models/registry.rb:57-59 | jobs for every upstream name, or a raise when the list raises; the rows are unchanged; the adapter is memoised |
| Registries.Registry.SyncMissingPackagesAsync | app/models/registry.rb:61-63 | jobs for the missing names, or a raise when the upstream list raises; the rows are unchanged; the adapter is memoised |
| Registries.Registry.SyncRecentlyUpdatedPackagesAsync | app/models/registry.rb:65-67 | jobs for the first 100 recently updated names, or a raise when the list raises; the rows are unchanged; the adapter is memoised |
| Bower.Slice | app/models/ecosystem/bower.rb:22 | keeps exactly the name and url fields that are present, with their values |
| Bower.Put | app/models/ecosystem/bower.rb:22 | assigning a key keeps the index well formed, replaces the key's entry and keeps the order of a key already present |
| Bower.BuildIndex | app/models/ecosystem/bower.rb:16-27 | the index of the registry list; characterised by `BuildIndexRaises`, `BuildIndexShape` and `LaterEntryWins` |
| Bower.BuildIndexRaises | app/models/ecosystem/bower.rb:16-27 | building the index raises iff some entry has no string name |
| Bower.RaisedHasUnnamed | app/models/ecosystem/bower.rb:16-27 | a build that raises met an entry without a string name |
| Bower.UnnamedRaises | app/models/ecosystem/bower.rb:16-27 | an entry without a string name makes the whole build raise, wherever it is |
| Bower.BuildIndexShape | app/models/ecosystem/bower.rb:16-27 | a built index has each key exactly once; keys are lower case; entries hold only name and url; the keys are exactly the downcased names |
| Bower.BuildIndexWellFormed | app/models/ecosystem/bower.rb:16-27 | each key is listed once and has an entry; keys are lower case; entries hold only name and url |
| Bower.BuildIndexKeySet | app/models/ecosystem/bower.rb:16-27 | the keys are exactly the downcased names of the entries |
| Bower.LaterEntryWins | app/models/ecosystem/bower.rb:21-23 | when names collide after downcasing, the key holds the slice of the last such entry |
| Bower.Find | app/models/ecosystem/bower.rb:33-35 | the entry under the downcased name; characterised by `FindIgnoresCase` and `FindInBuiltIndex` |
| Bower.FindIgnoresCase | app/models/ecosystem/bower.rb:33-35 | names that downcase alike find the same entry |
| Bower.FindInBuiltIndex | app/models/ecosystem/bower.rb:33-35 | a name is found iff some entry's name downcases to the same string; it then finds the last such entry's slice; otherwise nil |
| Bower.RecentlyUpdatedPackageNames | app/models/ecosystem/bower.rb:12-14 | always empty |
| Bower.VersionsMetadata | app/models/ecosystem/bower.rb:29-31 | always empty |
| Bower.BowerJsonUrl | app/models/ecosystem/bower.rb:53 | the raw GitHub url of the project's bower.json; characterised by `LoadBowerJson`, which fetches from it |
| Bower.LoadBowerJson | app/models/ecosystem/bower.rb:49-54 | the raw entry when its url is missing or is not a GitHub url; `{}` when the fetch raises; otherwise the fetched descriptor, or nil |
| Bower.MapPackageMetadata | app/models/ecosystem/bower.rb:37-47 | the six canonical fields, with name and repository url always taken from the raw entry |
| Bower.MapPackageMetadataSources | app/models/ecosystem/bower.rb:37-54 | license, keywords, homepage and description come from the raw entry when the load gives nil or is skipped, are all nil when the fetch raised, and otherwise come from the descriptor |
| Bower.InstallCommand | app/models/ecosystem/bower.rb:4-6 | `bower install <name>`, followed by `#<version>` exactly when a version is given |
| Bower.BowerAdapter.Packages | app/models/ecosystem/bower.rb:16-27 | returns the memoised index if there is one; otherwise raises when the download raised, else builds the index and memoises it; a raise memoises nothing; `IndexFrom`, the index a fresh adapter builds from the download, states the same for `AllPackageNames` and `FetchPackageMetadata` |
| Bower.BowerAdapter.Build | app/models/ecosystem/bower.rb:20-25 | the loop builds exactly `BuildIndex` of the registry list |
| Bower.BowerAdapter.AllPackageNames | app/models/ecosystem/bower.rb:8-10 | the index keys, raising when the index cannot be built; a fresh adapter memoises the index it built |
| Bower.BowerAdapter.FetchPackageMetadata | app/models/ecosystem/bower.rb:33-35 | the entry stored under the downcased name, or nil; raises when the index cannot be built |
| Bower.AllPackageNamesShape | app/models/ecosystem/bower.rb:8-10 | listed names are distinct, lower case, and exactly the downcased names of the registry list |
| PackagesController.SortOrder | app/controllers/api/v1/packages_controller.rb:13-20 | ordering applies iff sort or order is present; the key is sort if given, else updated_at, with stargazers_count read from repository metadata; ascending iff order is asc |
| PackagesController.SortOrderReadsOnlySortAndOrder | app/controllers/api/v1/packages_controller.rb:38-46 | the ordering depends on the sort and order parameters only |
| PackagesController.LibraryName | app/controllers/api/v1/packages_controller.rb:33 | a name without `/` gets the `library/` prefix; any other name is unchanged; the result has a `/` |
| PackagesController.LibraryNameIdempotent | app/controllers/api/v1/packages_controller.rb:33 | rewriting twice is rewriting once |
| PackagesController.LibraryNameRedis | app/controllers/api/v1/packages_controller.rb:33 | redis becomes library/redis; bitnami/redis is kept |
| PackagesController.DockerParams | app/controllers/api/v1/packages_controller.rb:33 | raises iff the ecosystem is docker and there is no name; for docker the name is namespaced; for any other ecosystem the parameters are unchanged |
| PackagesController.DockerParamsIdempotent | app/controllers/api/v1/packages_controller.rb:33 | the rewrite touches only the name, and applying it again changes nothing |
| PackagesController.LookupParams | app/controllers/api/v1/packages_controller.rb:28-34 | raises iff neither repository_url nor purl is present, the ecosystem is docker and there is no name; only the name can change, and only to `library/<name>` for docker |
| PackagesController.LookupQuery | app/controllers/api/v1/packages_controller.rb:28-36 | repository_url first, then purl, else the name with the ecosystem filter iff the ecosystem is present |
| PackagesController.Lookup | app/controllers/api/v1/packages_controller.rb:27-65 | raises iff the docker rewrite raises, the scope raises (as `lookup_by_purl` does on a bad purl), or the result is empty with a purl that does not parse; the rendered rows are those of the query and never depend on the sync; a job is enqueued only when the result is empty; with a purl, the job goes to the purl's registry and package; otherwise a job is enqueued iff ecosystem and name are present and a registry exists |
| PackagesController.DockerLookupSearchesLibrary | app/controllers/api/v1/packages_controller.rb:33-35 | a docker lookup of a bare name searches `library/<name>` in docker |
| PackagesController.FallbackKey | app/controllers/api/v1/packages_controller.rb:98-104 | pypi uses the normalised-name finder on the id; docker without `/` uses `library/<id>`; otherwise the downcased id |
| PackagesController.Show | app/controllers/api/v1/packages_controller.rb:91-106 | raises when the registry is missing; an exact match wins; otherwise the fallback's result, raising when it finds nothing |
| PackagesController.ShowLowerCaseMissRaises | app/controllers/api/v1/packages_controller.rb:102-104 | outside pypi and docker, a lower-case id that misses has no second chance |
| PackagesController.ShowDockerAgreesWithLookup | app/controllers/api/v1/packages_controller.rb:100-101 | the docker fallback of show and the rewrite of lookup give the same name |
| PackagesController.FallbackIgnoresCase | app/controllers/api/v1/packages_controller.rb:102-104 | outside pypi and docker, ids equal up to case fall back alike |
| PackagesController.Ping | app/controllers/api/v1/packages_controller.rb:172-181 | raises iff the registry is missing; otherwise it re-syncs the found package, or enqueues a sync by id when none is found, and always answers pong |

## Left out

- `Ecosystem::Base` (`package_metadata`, `find`, the purl-type tables) is not part of this model. The adapter's record, version and dependency calls are uninterpreted total functions.
- HTTP (`get`, `get_json`), `GithubUrlParser.parse` and `PackageURL.parse` are not part of this model. Their results are parameters: `get` as the `Attempt` `BowerAdapter.Packages` receives, `get_json` and `PackageURL.parse` as functions yielding `Attempt`s.
- Bower.LoadBowerJson: `GithubUrlParser.parse` is taken to return a name or nil; a raise inside it is not modelled.
- `lookup_by_purl` (packages_controller.rb:31) is not part of this model; the rows it finds and its raise are outcomes of `Lookup`'s `run`.
- `Package#update_details` and `update_dependent_packages_count`: the Package model is not part of this model.
- `top_percentage_for` and `top_percentage_for_json` (registry.rb:157-165): floating-point ratios over SQL counts.
- `Registry#versions_count` (a SQL sum) and `to_param`.
- `Registry.sync_all_*` class methods: they iterate over every registry row, and the model has one registry object.
- `sync_package_async` is represented only by the (registry id, name) job it enqueues.
- Validations of name, url and ecosystem (registry.rb:2-4).
- The Sidekiq workers.
- Logging (`puts`, `logger`).
- ActiveRecord scopes, SQL sort expressions, `pagy_countless`, `fresh_when`/`stale?` and rendering, including the `index`, `names`, `dependent_packages`, `dependent_package_kinds`, `related_packages` and `ping_all` actions. Their ordering block is the one `SortOrder` models.
- Registries.Registry.SyncPackage: every call one `sync_package` makes is answered as the adapter answers at that sync's `now`; the calls are in fact made at slightly different moments.
- `save!` and `update!` validation failures, and database errors other than the raises of the adapter calls.
- RegistrySync.Persist: always stores the `last_synced_at` and `versions_count` stamp. The final `package.save` (registry.rb:140) returns false on a failed validation instead of raising, which would leave the stamp unsaved.
- RegistrySync.InsertDependencies: appends every row; a unique index on dependency rows, if the schema has one, is not part of this model.
- RegistrySync.Delta: every row inserted by one sync carries the same timestamp `now`, where the code reads the clock for each row and again for `last_synced_at`.
- RegistrySync.Upsert: a new package row starts with `versions_count` 0 and no `last_synced_at`; the column defaults are not part of this model.
- Values.Lower: downcases only the letters A to Z, where Ruby's `String#downcase` also folds other Unicode letters.
- PackagesController.Blank: treats only ASCII white space as blank, where Rails' `blank?` also accepts Unicode white space.
- Bower.BuildIndexShape: does not state the order of the keys. The model keeps Ruby's insertion order, where a key first seen earlier keeps its position when a later entry replaces it.
- Bower.LoadBowerJson: the descriptor fetch yields a record or nil; a JSON document that is not an object is not modelled.
- Concurrency of the workers and of `insert_all` against other writers.
