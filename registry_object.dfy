/** The Registry record of app/models/registry.rb as an object: its rows are
    fields that the sync methods update in place, and every method is proved
    against the functions of RegistrySync. */
module Registries {
  import opened Values
  import opened RegistrySync

  /** What `@ecosystem_instance ||= ecosystem_class.new(self)` evaluates to:
      the memoised adapter object if there is one, else the freshly built one.
      The object is memoised, not its answers: each call it makes asks the
      network at the time it is made. */
  function Memo(instance: Option<Upstream>, construct: Upstream): (a: Upstream)
    ensures instance.Some? ==> a == instance.value
    ensures instance.None? ==> a == construct
  {
    if instance.Some? then instance.value else construct
  }

  /** Once memoised, the adapter no longer depends on what would be built. */
  lemma MemoStable(instance: Option<Upstream>, c1: Upstream, c2: Upstream)
    ensures Memo(Some(Memo(instance, c1)), c2) == Memo(instance, c1)
  {
  }

  /** One more batch of `insert_all` extends the inserted prefix by that batch. */
  lemma VersionBatchStep(stored: seq<Version>, batches: seq<seq<Version>>, j: nat)
    requires j < |batches|
    ensures InsertVersions(stored, Flatten(batches[..j + 1])) ==
            InsertVersions(InsertVersions(stored, Flatten(batches[..j])), batches[j])
  {
    assert batches[..j + 1] == batches[..j] + [batches[j]];
    FlattenSnoc(batches[..j], batches[j]);
    InsertVersionsAppend(stored, Flatten(batches[..j]), batches[j]);
  }

  lemma DependencyBatchStep(deps: map<VersionKey, seq<Dependency>>, batches: seq<seq<DependencyRow>>, j: nat)
    requires j < |batches|
    ensures InsertDependencies(deps, Flatten(batches[..j + 1])) ==
            InsertDependencies(InsertDependencies(deps, Flatten(batches[..j])), batches[j])
  {
    assert batches[..j + 1] == batches[..j] + [batches[j]];
    FlattenSnoc(batches[..j], batches[j]);
    InsertDependenciesAppend(deps, Flatten(batches[..j]), batches[j]);
  }

  class Registry {
    const id: int
    const name: string
    const url: string
    const ecosystem: string

    var packages: map<string, Package>
    var versions: map<string, seq<Version>>
    var dependencies: map<VersionKey, seq<Dependency>>
    /** `@ecosystem_instance`. */
    var instance: Option<Upstream>

    /** The registry's rows as a value. */
    function State(): Store
      reads this
    {
      Store(packages, versions, dependencies)
    }

    ghost predicate Valid()
      reads this
    {
      ValidStore(State())
    }

    /** A registry with no packages and no adapter built yet. */
    constructor(id: int, name: string, url: string, ecosystem: string)
      ensures this.id == id && this.name == name && this.url == url && this.ecosystem == ecosystem
      ensures State() == Store(map[], map[], map[]) && instance == None
      ensures Valid()
    {
      this.id := id;
      this.name := name;
      this.url := url;
      this.ecosystem := ecosystem;
      packages := map[];
      versions := map[];
      dependencies := map[];
      instance := None;
    }

    /** A registry loaded with rows that keep the store invariant, and no
        adapter built yet. */
    constructor Load(id: int, name: string, url: string, ecosystem: string, rows: Store)
      requires ValidStore(rows)
      ensures this.id == id && this.name == name && this.url == url && this.ecosystem == ecosystem
      ensures State() == rows && instance == None
      ensures Valid()
    {
      this.id := id;
      this.name := name;
      this.url := url;
      this.ecosystem := ecosystem;
      packages := rows.packages;
      versions := rows.versions;
      dependencies := rows.dependencies;
      instance := None;
    }

    /** ecosystem_instance (lines 149-151): built on first use, then reused. */
    method EcosystemInstance(construct: Upstream) returns (a: Upstream)
      modifies this
      ensures a == Memo(old(instance), construct)
      ensures instance == Some(a)
      ensures State() == old(State())
    {
      if instance.None? {
        instance := Some(construct);
      }
      a := instance.value;
    }

    /** existing_package_names (lines 37-39). */
    function ExistingPackageNames(): (r: set<string>)
      reads this
      ensures Valid() ==> forall n :: n in r <==> exists p :: p in packages.Values && p.name == n
    {
      packages.Keys
    }

    /** all_package_names (lines 29-31), asked at time `now`. */
    method AllPackageNames(construct: Upstream, now: Time) returns (names: Attempt<seq<string>>)
      modifies this
      ensures names == Memo(old(instance), construct)(now).allPackageNames
      ensures instance == Some(Memo(old(instance), construct)) && State() == old(State())
    {
      var up := EcosystemInstance(construct);
      names := up(now).allPackageNames;
    }

    /** recently_updated_package_names (lines 33-35); it raises when the
        adapter's list raises. */
    method RecentNames(construct: Upstream, now: Time) returns (names: Attempt<seq<string>>)
      modifies this
      ensures var listed := Memo(old(instance), construct)(now).recentlyUpdatedPackageNames;
        names == if listed.Done? then Done(RecentlyUpdatedPackageNames(listed.value)) else Raised
      ensures instance == Some(Memo(old(instance), construct)) && State() == old(State())
    {
      var up := EcosystemInstance(construct);
      var listed := up(now).recentlyUpdatedPackageNames;
      if listed.Raised? {
        return Raised;
      }
      names := Done(RecentlyUpdatedPackageNames(listed.value));
    }

    /** missing_package_names (lines 41-43); it raises when all_package_names does. */
    method MissingNames(construct: Upstream, now: Time) returns (names: Attempt<seq<string>>)
      modifies this
      ensures var all := Memo(old(instance), construct)(now).allPackageNames;
        names == if all.Done? then Done(MissingPackageNames(all.value, old(packages).Keys)) else Raised
      ensures instance == Some(Memo(old(instance), construct)) && State() == old(State())
    {
      var all := AllPackageNames(construct, now);
      if all.Raised? {
        return Raised;
      }
      names := Done(MissingPackageNames(all.value, ExistingPackageNames()));
    }

    /** The version delta loop (lines 100-105). */
    static method NewVersions(upstream: seq<VersionInfo>, existing: seq<string>, now: Time) returns (r: seq<Version>)
      ensures r == Delta(upstream, existing, now)
    {
      r := [];
      for i := 0 to |upstream|
        invariant r == Delta(upstream[..i], existing, now)
      {
        assert upstream[..i + 1][..i] == upstream[..i];
        if upstream[i].number !in existing {
          r := r + [Row(upstream[i], now)];
        }
      }
      assert upstream[..|upstream|] == upstream;
    }

    /** `new_versions.each_slice(100) { |s| Version.insert_all(s) }` (lines 108-110). */
    method InsertVersionBatches(p: string, rows: seq<Version>) returns (all: seq<Version>)
      requires rows != []
      modifies this
      ensures all == InsertVersions(VersionsOf(old(versions), p), rows)
      ensures versions == old(versions)[p := all]
      ensures packages == old(packages) && dependencies == old(dependencies) && instance == old(instance)
    {
      var stored := VersionsOf(versions, p);
      var batches := EachSlice(rows, BatchSize);
      all := stored;
      for j := 0 to |batches|
        invariant all == InsertVersions(stored, Flatten(batches[..j]))
        invariant versions == if j == 0 then old(versions) else old(versions)[p := all]
        invariant packages == old(packages) && dependencies == old(dependencies) && instance == old(instance)
      {
        VersionBatchStep(stored, batches, j);
        ghost var prev := all;
        all := InsertVersions(all, batches[j]);
        versions := versions[p := all];
        if j > 0 {
          UpdateTwice(old(versions), p, prev, all);
        }
      }
      assert batches[..|batches|] == batches;
    }

    /** The `all_deps` loop (lines 112-129). */
    static method CollectDependencies(up: Adapter, name: string, meta: Canonical, p: string,
                                      all: seq<Version>, deps: map<VersionKey, seq<Dependency>>)
      returns (r: seq<seq<DependencyRow>>)
      ensures r == PendingDependencies(up, name, meta, p, all, deps)
    {
      r := [];
      for i := 0 to |all|
        invariant r == PendingDependencies(up, name, meta, p, all[..i], deps)
      {
        assert all[..i + 1][..i] == all[..i];
        var k := VersionKey(p, all[i].number);
        if DepsOf(deps, k) == [] {
          var fetched := up.dependenciesMetadata(name, all[i].number, meta);
          if fetched.Done? && fetched.value != [] {
            r := r + [Tag(k, fetched.value)];
          }
        }
      }
      assert all[..|all|] == all;
    }

    /** `all_deps.flatten.each_slice(100) { |s| Dependency.insert_all(s) }` (lines 131-133). */
    method InsertDependencyBatches(rows: seq<DependencyRow>)
      modifies this
      ensures dependencies == InsertDependencies(old(dependencies), rows)
      ensures packages == old(packages) && versions == old(versions) && instance == old(instance)
    {
      var batches := EachSlice(rows, BatchSize);
      for j := 0 to |batches|
        invariant dependencies == InsertDependencies(old(dependencies), Flatten(batches[..j]))
        invariant packages == old(packages) && versions == old(versions) && instance == old(instance)
      {
        DependencyBatchStep(old(dependencies), batches, j);
        dependencies := InsertDependencies(dependencies, batches[j]);
      }
      assert batches[..|batches|] == batches;
    }

    /** Lines 107-140 once the delta is known to be non-empty: insert it, then
        the pending dependencies, and stamp the package with the new count. */
    method SaveVersions(up: Adapter, name: string, meta: Canonical, rows: seq<Version>, now: Time)
      returns (outcome: SyncOutcome)
      requires rows != [] && meta.name in packages
      modifies this
      ensures var p := meta.name;
        var all := InsertVersions(VersionsOf(old(versions), p), rows);
        var pkg := old(packages)[p].(lastSyncedAt := Some(now), versionsCount := |all|);
        && versions == old(versions)[p := all]
        && dependencies == InsertDependencies(old(dependencies), Flatten(PendingDependencies(up, name, meta, p, all, old(dependencies))))
        && packages == old(packages)[p := pkg]
        && outcome == Synced(pkg)
      ensures instance == old(instance)
    {
      var p := meta.name;
      var all := InsertVersionBatches(p, rows);
      var allDeps := CollectDependencies(up, name, meta, p, all, dependencies);
      InsertDependencyBatches(Flatten(allDeps));
      var pkg := packages[p].(lastSyncedAt := Some(now), versionsCount := |all|);
      packages := packages[p := pkg];
      outcome := Synced(pkg);
    }

    /** Lines 91-142: upsert the package, insert the version delta and, when
        there was one, the pending dependencies; then stamp the package. */
    method Save(up: Adapter, name: string, meta: Canonical, upstream: seq<VersionInfo>, now: Time)
      returns (outcome: SyncOutcome)
      modifies this
      ensures (State(), outcome) == Persist(old(State()), up, name, meta, upstream, now)
      ensures instance == old(instance)
    {
      ghost var s0 := State();
      var p := meta.name;
      packages := packages[p := Upsert(packages, meta)];
      var newVersions := NewVersions(upstream, Numbers(VersionsOf(versions, p)), now);
      if newVersions != [] {
        PersistInserting(s0, up, name, meta, upstream, now);
        outcome := SaveVersions(up, name, meta, newVersions, now);
      } else {
        PersistStamping(s0, up, name, meta, upstream, now);
        var pkg := packages[p].(lastSyncedAt := Some(now));
        packages := packages[p := pkg];
        outcome := Synced(pkg);
      }
    }

    /** sync_package (lines 84-143) at time `now`, the adapter being the
        memoised instance, answering as it does at `now`. */
    method SyncPackage(construct: Upstream, name: string, now: Time) returns (outcome: SyncOutcome)
      requires Valid()
      modifies this
      ensures Valid()
      ensures instance == Some(Memo(old(instance), construct))
      ensures (State(), outcome) == SyncSpec(old(State()), Memo(old(instance), construct)(now), ecosystem, name, now)
    {
      ghost var s0 := State();
      var adapter := EcosystemInstance(construct);
      var up := adapter(now);
      SyncPreservesValid(s0, up, ecosystem, name, now);
      var fetched := up.packageMetadata(name);
      if fetched.Raised? {
        return Failed;
      }
      if fetched.value.None? {
        return NotFound;
      }
      var meta := WithEcosystem(fetched.value.value, ecosystem);
      var listed := up.versionsMetadata(meta);
      if listed.Raised? {
        return Failed;
      }
      outcome := Save(up, name, meta, listed.value, now);
    }

    /** sync_packages (lines 69-78): each name in turn, the i-th at `times[i]`;
        a failing sync is logged and the loop goes on. */
    method SyncPackages(construct: Upstream, names: seq<string>, times: seq<Time>) returns (failed: seq<string>)
      requires Valid()
      requires |times| == |names|
      modifies this
      ensures Valid()
      ensures names != [] ==> instance == Some(Memo(old(instance), construct))
      ensures names == [] ==> instance == old(instance)
      ensures (State(), failed) == SyncAll(old(State()), Memo(old(instance), construct), ecosystem, names, times)
    {
      ghost var up := Memo(instance, construct);
      failed := [];
      for i := 0 to |names|
        invariant Valid()
        invariant instance == if i == 0 then old(instance) else Some(up)
        invariant (State(), failed) == SyncAll(old(State()), up, ecosystem, names[..i], times[..i])
      {
        assert names[..i + 1][..i] == names[..i] && times[..i + 1][..i] == times[..i];
        var outcome := SyncPackage(construct, names[i], times[i]);
        if outcome == Failed {
          failed := failed + [names[i]];
        }
      }
      assert names[..|names|] == names && times[..|times|] == times;
    }

    /** sync_all_packages (lines 45-47). The name list is read before the
        rescuing loop, so when it raises nothing is synced. */
    method SyncAllPackages(construct: Upstream, now: Time, times: seq<Time>) returns (failed: Attempt<seq<string>>)
      requires Valid()
      requires var all := Memo(instance, construct)(now).allPackageNames; all.Done? ==> |times| == |all.value|
      modifies this
      ensures Valid()
      ensures instance == Some(Memo(old(instance), construct))
      ensures var up := Memo(old(instance), construct);
        var all := up(now).allPackageNames;
        if all.Raised? then failed == Raised && State() == old(State())
        else failed.Done? && (State(), failed.value) == SyncAll(old(State()), up, ecosystem, all.value, times)
    {
      var names := AllPackageNames(construct, now);
      if names.Raised? {
        return Raised;
      }
      var logged := SyncPackages(construct, names.value, times);
      failed := Done(logged);
    }

    /** sync_missing_packages (lines 49-51). */
    method SyncMissingPackages(construct: Upstream, now: Time, times: seq<Time>) returns (failed: Attempt<seq<string>>)
      requires Valid()
      requires var all := Memo(instance, construct)(now).allPackageNames;
        all.Done? ==> |times| == |MissingPackageNames(all.value, packages.Keys)|
      modifies this
      ensures Valid()
      ensures instance == Some(Memo(old(instance), construct))
      ensures var up := Memo(old(instance), construct);
        var all := up(now).allPackageNames;
        if all.Raised? then failed == Raised && State() == old(State())
        else (failed.Done? &&
          (State(), failed.value) == SyncAll(old(State()), up, ecosystem, MissingPackageNames(all.value, old(packages).Keys), times))
    {
      var names := MissingNames(construct, now);
      if names.Raised? {
        return Raised;
      }
      var logged := SyncPackages(construct, names.value, times);
      failed := Done(logged);
    }

    /** sync_recently_updated_packages (lines 53-55). */
    method SyncRecentlyUpdatedPackages(construct: Upstream, now: Time, times: seq<Time>) returns (failed: Attempt<seq<string>>)
      requires Valid()
      requires var listed := Memo(instance, construct)(now).recentlyUpdatedPackageNames;
        listed.Done? ==> |times| == |RecentlyUpdatedPackageNames(listed.value)|
      modifies this
      ensures Valid()
      ensures instance == Some(Memo(old(instance), construct))
      ensures var up := Memo(old(instance), construct);
        var listed := up(now).recentlyUpdatedPackageNames;
        if listed.Raised? then failed == Raised && State() == old(State())
        else (failed.Done? &&
          (State(), failed.value) == SyncAll(old(State()), up, ecosystem, RecentlyUpdatedPackageNames(listed.value), times))
    {
      var names := RecentNames(construct, now);
      if names.Raised? {
        return Raised;
      }
      var logged := SyncPackages(construct, names.value, times);
      failed := Done(logged);
    }

    /** sync_packages_async (lines 80-82): the jobs handed to the worker queue. */
    function SyncPackagesAsync(names: seq<string>): (jobs: seq<(int, string)>)
      reads this
      ensures |jobs| == |names| && forall i :: 0 <= i < |names| ==> jobs[i] == (id, names[i])
    {
      AsyncPayload(id, names)
    }

    /** sync_all_packages_async (lines 57-59). */
    method SyncAllPackagesAsync(construct: Upstream, now: Time) returns (jobs: Attempt<seq<(int, string)>>)
      modifies this
      ensures var all := Memo(old(instance), construct)(now).allPackageNames;
        jobs == if all.Done? then Done(AsyncPayload(id, all.value)) else Raised
      ensures State() == old(State())
      ensures instance == Some(Memo(old(instance), construct))
    {
      var names := AllPackageNames(construct, now);
      if names.Raised? {
        return Raised;
      }
      jobs := Done(SyncPackagesAsync(names.value));
    }

    /** sync_missing_packages_async (lines 61-63). */
    method SyncMissingPackagesAsync(construct: Upstream, now: Time) returns (jobs: Attempt<seq<(int, string)>>)
      modifies this
      ensures var all := Memo(old(instance), construct)(now).allPackageNames;
        jobs == if all.Done? then Done(AsyncPayload(id, MissingPackageNames(all.value, old(packages).Keys))) else Raised
      ensures State() == old(State())
      ensures instance == Some(Memo(old(instance), construct))
    {
      var names := MissingNames(construct, now);
      if names.Raised? {
        return Raised;
      }
      jobs := Done(SyncPackagesAsync(names.value));
    }

    /** sync_recently_updated_packages_async (lines 65-67). */
    method SyncRecentlyUpdatedPackagesAsync(construct: Upstream, now: Time) returns (jobs: Attempt<seq<(int, string)>>)
      modifies this
      ensures var listed := Memo(old(instance), construct)(now).recentlyUpdatedPackageNames;
        jobs == if listed.Done? then Done(AsyncPayload(id, RecentlyUpdatedPackageNames(listed.value))) else Raised
      ensures State() == old(State())
      ensures instance == Some(Memo(old(instance), construct))
    {
      var names := RecentNames(construct, now);
      if names.Raised? {
        return Raised;
      }
      jobs := Done(SyncPackagesAsync(names.value));
    }
  }
}
