/** The per-registry sync engine of app/models/registry.rb as functions on the
    store: the dispatcher's choice of names, the incremental
    package/version/dependency sync of one package, and the rescuing batch
    loop. The registry object that owns the store is module Registries. */
module RegistrySync {
  import opened Values

  /** An opaque timestamp (`Time.now`), supplied by the caller. */
  type Time = int

  /** Rows per `insert_all` statement (`each_slice(100)`). */
  const BatchSize: nat := 100

  /** How many recently updated names the dispatcher keeps (`first(100)`). */
  const RecentLimit: nat := 100

  /** Keys of the canonical record that are not package columns (line 93). */
  const Excluded: set<string> :=
    {"name", "releases", "versions", "version", "dependencies", "properties", "page", "time", "download_stats"}

  // ---------------------------------------------------------------------
  // The upstream, as the adapter presents it

  /** A canonical package record: its name and every other attribute. */
  datatype Canonical = Canonical(name: string, fields: Record)

  /** One version descriptor; every descriptor has a number. */
  datatype VersionInfo = VersionInfo(number: string, fields: Record)

  /** One dependency edge of a version (package name, requirements, kind, ...). */
  datatype Dependency = Dependency(fields: Record)

  /** The ecosystem adapter, its network calls abstracted as total functions.
      A call that raises yields Raised (the name lists too: Bower's
      all_package_names raises when its index cannot be built); a package the
      upstream does not know yields Done(None). */
  datatype Adapter = Adapter(
    allPackageNames: Attempt<seq<string>>,
    recentlyUpdatedPackageNames: Attempt<seq<string>>,
    packageMetadata: string -> Attempt<Option<Canonical>>,
    versionsMetadata: Canonical -> Attempt<seq<VersionInfo>>,
    dependenciesMetadata: (string, string, Canonical) -> Attempt<seq<Dependency>>)

  // ---------------------------------------------------------------------
  // The store

  /** A package row; `attrs` holds the columns copied from the canonical record. */
  datatype Package = Package(name: string, attrs: Record, lastSyncedAt: Option<Time>, versionsCount: nat)

  /** A version row: the descriptor merged with its creation time. */
  datatype Version = Version(number: string, fields: Record, createdAt: Time)

  /** Identifies a version row; (package, number) is unique, so it stands for the row id. */
  datatype VersionKey = VersionKey(package: string, number: string)

  /** A dependency row ready for `insert_all`: the edge tagged with its version. */
  datatype DependencyRow = DependencyRow(version: VersionKey, dep: Dependency)

  /** One registry's rows: packages by name, each package's versions in
      insertion order, and each version's dependency rows. */
  datatype Store = Store(
    packages: map<string, Package>,
    versions: map<string, seq<Version>>,
    dependencies: map<VersionKey, seq<Dependency>>)

  /** What `sync_package` returns: `false`, an exception, or the package. */
  datatype SyncOutcome = NotFound | Failed | Synced(package: Package)

  // ---------------------------------------------------------------------
  // Sequence helpers

  /** `a` is `b` with some elements dropped, order kept. */
  predicate IsSubsequence<T(==)>(a: seq<T>, b: seq<T>)
    decreases |b|
  {
    a == [] || (b != [] && ((a[0] == b[0] && IsSubsequence(a[1..], b[1..])) || IsSubsequence(a, b[1..])))
  }

  function Flatten<T>(xss: seq<seq<T>>): seq<T>
  {
    if xss == [] then [] else xss[0] + Flatten(xss[1..])
  }

  lemma {:induction false} FlattenAppend<T>(xss: seq<seq<T>>, yss: seq<seq<T>>)
    ensures Flatten(xss + yss) == Flatten(xss) + Flatten(yss)
    decreases |xss|
  {
    if xss == [] {
      assert xss + yss == yss;
    } else {
      assert (xss + yss)[1..] == xss[1..] + yss;
      FlattenAppend(xss[1..], yss);
    }
  }

  lemma FlattenSnoc<T>(xss: seq<seq<T>>, ys: seq<T>)
    ensures Flatten(xss + [ys]) == Flatten(xss) + ys
  {
    FlattenAppend(xss, [ys]);
    assert Flatten([ys]) == ys + Flatten([]);
  }

  /** `each_slice(n)`: consecutive slices of `xs`, all of length `n` but the last. */
  function EachSlice<T>(xs: seq<T>, n: nat): (r: seq<seq<T>>)
    requires n > 0
    ensures Flatten(r) == xs
    ensures forall i :: 0 <= i < |r| ==> 0 < |r[i]| <= n
    ensures forall i :: 0 <= i < |r| - 1 ==> |r[i]| == n
    ensures |r| == 0 <==> xs == []
    decreases |xs|
  {
    if xs == [] then []
    else if |xs| <= n then
      assert Flatten([xs]) == xs + Flatten([]);
      [xs]
    else
      var rest := EachSlice(xs[n..], n);
      assert ([xs[..n]] + rest)[1..] == rest;
      assert xs == xs[..n] + xs[n..];
      [xs[..n]] + rest
  }

  // ---------------------------------------------------------------------
  // Dispatcher: which names get synced

  /** `all_package_names - existing_package_names` (Array#-): the upstream
      names that are not stored, in upstream order, repeats kept. */
  function MissingPackageNames(all: seq<string>, existing: set<string>): (r: seq<string>)
    ensures forall x :: x in r <==> x in all && x !in existing
    ensures forall x :: x !in existing ==> multiset(r)[x] == multiset(all)[x]
    ensures forall x :: x in existing ==> multiset(r)[x] == 0
    ensures IsSubsequence(r, all)
  {
    if all == [] then []
    else
      var rest := MissingPackageNames(all[1..], existing);
      assert all == [all[0]] + all[1..];
      if all[0] in existing then rest
      else
        assert ([all[0]] + rest)[1..] == rest;
        [all[0]] + rest
  }

  /** `recently_updated_package_names.first(100)`. */
  function RecentlyUpdatedPackageNames(names: seq<string>): (r: seq<string>)
    ensures |r| == if |names| < RecentLimit then |names| else RecentLimit
    ensures r <= names
  {
    if |names| <= RecentLimit then names else names[..RecentLimit]
  }

  /** The arguments of `perform_bulk`: one `[id, name]` job per name, in order. */
  function AsyncPayload(registryId: int, names: seq<string>): (r: seq<(int, string)>)
    ensures |r| == |names|
    ensures forall i :: 0 <= i < |names| ==> r[i] == (registryId, names[i])
  {
    if names == [] then [] else [(registryId, names[0])] + AsyncPayload(registryId, names[1..])
  }

  // ---------------------------------------------------------------------
  // sync_package, step by step, as functions of the store

  function VersionsOf(versions: map<string, seq<Version>>, p: string): seq<Version>
  {
    if p in versions then versions[p] else []
  }

  function DepsOf(deps: map<VersionKey, seq<Dependency>>, k: VersionKey): seq<Dependency>
  {
    if k in deps then deps[k] else []
  }

  function Numbers(vs: seq<Version>): seq<string>
  {
    seq(|vs|, i requires 0 <= i < |vs| => vs[i].number)
  }

  function InfoNumbers(vs: seq<VersionInfo>): seq<string>
  {
    seq(|vs|, i requires 0 <= i < |vs| => vs[i].number)
  }

  /** `package_metadata[:ecosystem] = ecosystem.downcase` (line 88). */
  function WithEcosystem(c: Canonical, ecosystem: string): Canonical
  {
    c.(fields := c.fields["ecosystem" := Str(Lower(ecosystem))])
  }

  /** `package_metadata.except(:name, :releases, ...)` (lines 93, 96). */
  function PackageAttributes(meta: Canonical): (r: Record)
    ensures r.Keys == meta.fields.Keys - Excluded
    ensures forall k :: k in r ==> r[k] == meta.fields[k]
  {
    map k | k in meta.fields && k !in Excluded :: meta.fields[k]
  }

  /** find_or_initialize_by(name:) followed by assign_attributes/update! (lines 91-98).
      A new row starts with no sync time and a version count of 0. */
  function Upsert(packages: map<string, Package>, meta: Canonical): (p: Package)
    ensures p.name == (if meta.name in packages then packages[meta.name].name else meta.name)
    ensures forall k :: k in PackageAttributes(meta) ==> k in p.attrs && p.attrs[k] == PackageAttributes(meta)[k]
    ensures meta.name in packages ==>
      p.lastSyncedAt == packages[meta.name].lastSyncedAt && p.versionsCount == packages[meta.name].versionsCount
    ensures meta.name in packages ==>
      forall k :: k in packages[meta.name].attrs && k !in PackageAttributes(meta) ==> k in p.attrs && p.attrs[k] == packages[meta.name].attrs[k]
    ensures meta.name in packages ==> p.attrs.Keys == packages[meta.name].attrs.Keys + PackageAttributes(meta).Keys
    ensures meta.name !in packages ==> p == Package(meta.name, PackageAttributes(meta), None, 0)
  {
    if meta.name in packages then
      var old_ := packages[meta.name];
      old_.(attrs := old_.attrs + PackageAttributes(meta))
    else
      Package(meta.name, PackageAttributes(meta), None, 0)
  }

  /** `version.merge(package_id:, created_at: now, updated_at: now)`. */
  function Row(v: VersionInfo, now: Time): Version
  {
    Version(v.number, v.fields, now)
  }

  /** The version delta (lines 100-105): every descriptor whose number is not
      among the numbers stored before the sync, in upstream order. Two new
      descriptors with the same number are both kept. */
  function Delta(upstream: seq<VersionInfo>, existing: seq<string>, now: Time): (r: seq<Version>)
    ensures forall v :: v in upstream && v.number !in existing ==> Row(v, now) in r
    ensures forall w :: w in r ==> w.number !in existing && w.createdAt == now
    ensures forall w :: w in r ==> exists i :: 0 <= i < |upstream| && w == Row(upstream[i], now)
    decreases |upstream|
  {
    if upstream == [] then []
    else
      var n := |upstream| - 1;
      var d := Delta(upstream[..n], existing, now);
      assert forall v :: v in upstream[..n] || v == upstream[n] <==> v in upstream;
      assert forall i :: 0 <= i < n ==> upstream[..n][i] == upstream[i];
      if upstream[n].number in existing then d else d + [Row(upstream[n], now)]
  }

  /** One row of `Version.insert_all`: skipped when (package, number) is taken. */
  function InsertVersion(stored: seq<Version>, row: Version): seq<Version>
  {
    if row.number in Numbers(stored) then stored else stored + [row]
  }

  /** `Version.insert_all(rows)`, an insert-if-absent keyed by number. */
  function InsertVersions(stored: seq<Version>, rows: seq<Version>): (r: seq<Version>)
    ensures stored <= r
    ensures forall n :: n in Numbers(r) <==> n in Numbers(stored) || n in Numbers(rows)
    ensures Distinct(Numbers(stored)) ==> Distinct(Numbers(r))
    ensures forall w :: w in r ==> w in stored || w in rows
    decreases |rows|
  {
    if rows == [] then stored
    else
      var next := InsertVersion(stored, rows[0]);
      assert next == stored || next == stored + [rows[0]];
      assert Numbers(stored + [rows[0]]) == Numbers(stored) + [rows[0].number];
      assert Numbers(rows) == [rows[0].number] + Numbers(rows[1..]);
      assert forall w :: w in rows[1..] ==> w in rows;
      InsertVersions(next, rows[1..])
  }

  lemma {:induction false} InsertVersionsAppend(stored: seq<Version>, a: seq<Version>, b: seq<Version>)
    ensures InsertVersions(stored, a + b) == InsertVersions(InsertVersions(stored, a), b)
    decreases |a|
  {
    if a == [] {
      assert a + b == b;
    } else {
      assert (a + b)[0] == a[0];
      assert (a + b)[1..] == a[1..] + b;
      InsertVersionsAppend(InsertVersion(stored, a[0]), a[1..], b);
    }
  }

  /** The dependency rows of one version, tagged with its key. */
  function Tag(k: VersionKey, ds: seq<Dependency>): (r: seq<DependencyRow>)
    ensures |r| == |ds|
    ensures forall i :: 0 <= i < |ds| ==> r[i] == DependencyRow(k, ds[i])
  {
    if ds == [] then [] else [DependencyRow(k, ds[0])] + Tag(k, ds[1..])
  }

  /** `all_deps` (lines 112-129): for each stored version, in order, that has no
      dependency rows, the rows its fetch returned; a fetch that raises counts
      as returning none. The fetch is made with the REQUESTED name. */
  function PendingDependencies(up: Adapter, name: string, meta: Canonical, p: string,
                               vs: seq<Version>, deps: map<VersionKey, seq<Dependency>>): seq<seq<DependencyRow>>
    decreases |vs|
  {
    if vs == [] then []
    else
      var n := |vs| - 1;
      var acc := PendingDependencies(up, name, meta, p, vs[..n], deps);
      var k := VersionKey(p, vs[n].number);
      if DepsOf(deps, k) != [] then acc
      else match up.dependenciesMetadata(name, vs[n].number, meta)
        case Raised => acc
        case Done(ds) => if ds == [] then acc else acc + [Tag(k, ds)]
  }

  /** `Dependency.insert_all(rows)`: every row is appended to its version's
      rows. */
  function InsertDependencies(deps: map<VersionKey, seq<Dependency>>, rows: seq<DependencyRow>): map<VersionKey, seq<Dependency>>
    decreases |rows|
  {
    if rows == [] then deps
    else InsertDependencies(deps[rows[0].version := DepsOf(deps, rows[0].version) + [rows[0].dep]], rows[1..])
  }

  /** The dependencies in `rows` tagged with `k`, in order. */
  function RowsFor(rows: seq<DependencyRow>, k: VersionKey): seq<Dependency>
  {
    if rows == [] then []
    else (if rows[0].version == k then [rows[0].dep] else []) + RowsFor(rows[1..], k)
  }

  lemma {:induction false} RowsForAppend(a: seq<DependencyRow>, b: seq<DependencyRow>, k: VersionKey)
    ensures RowsFor(a + b, k) == RowsFor(a, k) + RowsFor(b, k)
    decreases |a|
  {
    if a == [] {
      assert a + b == b;
    } else {
      assert (a + b)[0] == a[0];
      assert (a + b)[1..] == a[1..] + b;
      RowsForAppend(a[1..], b, k);
    }
  }

  lemma {:induction false} RowsForTag(k: VersionKey, ds: seq<Dependency>, k': VersionKey)
    ensures RowsFor(Tag(k, ds), k') == if k == k' then ds else []
    decreases |ds|
  {
    if ds != [] {
      var rest := Tag(k, ds[1..]);
      assert Tag(k, ds) == [DependencyRow(k, ds[0])] + rest;
      assert Tag(k, ds)[1..] == rest;
      RowsForTag(k, ds[1..], k');
      assert ds == [ds[0]] + ds[1..];
    }
  }

  /** Inserting rows appends, to each version's rows, exactly those tagged with it. */
  lemma {:induction false} InsertDependenciesAt(deps: map<VersionKey, seq<Dependency>>, rows: seq<DependencyRow>, k: VersionKey)
    ensures DepsOf(InsertDependencies(deps, rows), k) == DepsOf(deps, k) + RowsFor(rows, k)
    decreases |rows|
  {
    if rows != [] {
      var next := deps[rows[0].version := DepsOf(deps, rows[0].version) + [rows[0].dep]];
      InsertDependenciesAt(next, rows[1..], k);
    }
  }

  lemma {:induction false} InsertDependenciesAppend(deps: map<VersionKey, seq<Dependency>>, a: seq<DependencyRow>, b: seq<DependencyRow>)
    ensures InsertDependencies(deps, a + b) == InsertDependencies(InsertDependencies(deps, a), b)
    decreases |a|
  {
    if a == [] {
      assert a + b == b;
    } else {
      assert (a + b)[0] == a[0];
      assert (a + b)[1..] == a[1..] + b;
      InsertDependenciesAppend(deps[a[0].version := DepsOf(deps, a[0].version) + [a[0].dep]], a[1..], b);
    }
  }

  /** What the dependency pass adds to version `k`: nothing when it already has
      rows or its fetch raised, else what the fetch returned. */
  function Added(up: Adapter, name: string, meta: Canonical, deps: map<VersionKey, seq<Dependency>>, k: VersionKey): seq<Dependency>
  {
    if DepsOf(deps, k) != [] then []
    else match up.dependenciesMetadata(name, k.number, meta)
      case Raised => []
      case Done(ds) => ds
  }

  /** Dropping the last version of a duplicate-free list leaves a
      duplicate-free list that does not hold the last number. */
  lemma DistinctLast(vs: seq<Version>)
    requires vs != [] && Distinct(Numbers(vs))
    ensures Numbers(vs) == Numbers(vs[..|vs| - 1]) + [vs[|vs| - 1].number]
    ensures Distinct(Numbers(vs[..|vs| - 1]))
    ensures vs[|vs| - 1].number !in Numbers(vs[..|vs| - 1])
  {
    var n := |vs| - 1;
    var init := vs[..n];
    assert Numbers(vs) == Numbers(init) + [vs[n].number];
    assert Distinct(Numbers(init)) by {
      forall i, j | 0 <= i < j < |Numbers(init)| ensures Numbers(init)[i] != Numbers(init)[j] {
        assert Numbers(init)[i] == Numbers(vs)[i] && Numbers(init)[j] == Numbers(vs)[j];
      }
    }
    assert vs[n].number !in Numbers(init) by {
      forall i | 0 <= i < |Numbers(init)| ensures Numbers(init)[i] != vs[n].number {
        assert Numbers(init)[i] == Numbers(vs)[i] && Numbers(vs)[n] == vs[n].number;
      }
    }
  }

  /** The dependency pass over one more version adds that version's rows. */
  lemma PendingDependenciesStep(up: Adapter, name: string, meta: Canonical, p: string,
                                vs: seq<Version>, deps: map<VersionKey, seq<Dependency>>, k: VersionKey)
    requires vs != []
    ensures var n := |vs| - 1;
      var kn := VersionKey(p, vs[n].number);
      RowsFor(Flatten(PendingDependencies(up, name, meta, p, vs, deps)), k) ==
        RowsFor(Flatten(PendingDependencies(up, name, meta, p, vs[..n], deps)), k) +
        (if k == kn then Added(up, name, meta, deps, kn) else [])
  {
    var n := |vs| - 1;
    var acc := PendingDependencies(up, name, meta, p, vs[..n], deps);
    var kn := VersionKey(p, vs[n].number);
    var fetched := up.dependenciesMetadata(name, vs[n].number, meta);
    if DepsOf(deps, kn) == [] && fetched.Done? && fetched.value != [] {
      var ds := fetched.value;
      assert PendingDependencies(up, name, meta, p, vs, deps) == acc + [Tag(kn, ds)];
      FlattenSnoc(acc, Tag(kn, ds));
      RowsForAppend(Flatten(acc), Tag(kn, ds), k);
      RowsForTag(kn, ds, k);
    } else {
      assert PendingDependencies(up, name, meta, p, vs, deps) == acc;
      assert Added(up, name, meta, deps, kn) == [];
    }
  }

  /** The dependency pass adds, to each version of the package, exactly `Added`,
      and nothing to any other version. */
  lemma {:induction false} PendingDependenciesFor(up: Adapter, name: string, meta: Canonical, p: string,
                                                  vs: seq<Version>, deps: map<VersionKey, seq<Dependency>>, k: VersionKey)
    requires Distinct(Numbers(vs))
    ensures RowsFor(Flatten(PendingDependencies(up, name, meta, p, vs, deps)), k) ==
            if k.package == p && k.number in Numbers(vs) then Added(up, name, meta, deps, k) else []
    decreases |vs|
  {
    if vs != [] {
      var n := |vs| - 1;
      var init := vs[..n];
      DistinctLast(vs);
      PendingDependenciesFor(up, name, meta, p, init, deps, k);
      PendingDependenciesStep(up, name, meta, p, vs, deps, k);
      var kn := VersionKey(p, vs[n].number);
      assert k.number in Numbers(vs) <==> k.number in Numbers(init) || k.number == vs[n].number;
      if k == kn {
        assert k.number !in Numbers(init);
      }
    }
  }

  /** Steps 2-6 of sync_package, once the metadata and versions are fetched. */
  function Persist(s: Store, up: Adapter, name: string, meta: Canonical, upstream: seq<VersionInfo>, now: Time): (Store, SyncOutcome)
  {
    var p := meta.name;
    var pkg := Upsert(s.packages, meta);
    var stored := VersionsOf(s.versions, p);
    var pending := Delta(upstream, Numbers(stored), now);
    if pending == [] then
      var pkg' := pkg.(lastSyncedAt := Some(now));
      (s.(packages := s.packages[p := pkg']), Synced(pkg'))
    else
      var all := InsertVersions(stored, pending);
      var deps := InsertDependencies(s.dependencies, Flatten(PendingDependencies(up, name, meta, p, all, s.dependencies)));
      var pkg' := pkg.(lastSyncedAt := Some(now), versionsCount := |all|);
      (Store(s.packages[p := pkg'], s.versions[p := all], deps), Synced(pkg'))
  }

  /** sync_package (lines 84-143) as a function of the store before it. */
  function SyncSpec(s: Store, up: Adapter, ecosystem: string, name: string, now: Time): (r: (Store, SyncOutcome))
    ensures !r.1.Synced? ==> r.0 == s
    ensures r.1 == NotFound <==> up.packageMetadata(name) == Done(None)
    ensures r.1 == Failed <==>
      up.packageMetadata(name).Raised? ||
      (up.packageMetadata(name).Done? && up.packageMetadata(name).value.Some? &&
       up.versionsMetadata(WithEcosystem(up.packageMetadata(name).value.value, ecosystem)).Raised?)
    ensures r.1.Synced? ==> r.1.package.lastSyncedAt == Some(now)
    ensures r.1.Synced? ==> var p := up.packageMetadata(name).value.value.name;
      p in r.0.packages && r.0.packages[p] == r.1.package && r.0.packages - {p} == s.packages - {p}
  {
    match up.packageMetadata(name)
    case Raised => (s, Failed)
    case Done(None) => (s, NotFound)
    case Done(Some(c)) =>
      var meta := WithEcosystem(c, ecosystem);
      match up.versionsMetadata(meta)
      case Raised => (s, Failed)
      case Done(upstream) => Persist(s, up, name, meta, upstream, now)
  }

  // ---------------------------------------------------------------------
  // The store invariant and what one sync does to it

  /** Referential and counting invariants of a registry's rows: a package row is
      keyed by its name; versions belong to stored packages and have distinct
      numbers; `versions_count` counts the package's versions; dependency rows
      belong to stored versions. */
  ghost predicate ValidStore(s: Store)
  {
    && (forall p :: p in s.packages ==> s.packages[p].name == p)
    && s.versions.Keys <= s.packages.Keys
    && (forall p :: p in s.versions ==> Distinct(Numbers(s.versions[p])))
    && (forall p :: p in s.packages ==> s.packages[p].versionsCount == |VersionsOf(s.versions, p)|)
    && (forall k :: k in s.dependencies ==> k.number in Numbers(VersionsOf(s.versions, k.package)))
  }

  /** The upstream reports some number that the package does not store yet. */
  ghost predicate HasNewVersions(s: Store, p: string, upstream: seq<VersionInfo>)
  {
    exists v :: v in upstream && v.number !in Numbers(VersionsOf(s.versions, p))
  }

  lemma DeltaEmpty(upstream: seq<VersionInfo>, existing: seq<string>, now: Time)
    ensures Delta(upstream, existing, now) == [] <==> forall v :: v in upstream ==> v.number in existing
  {
    var d := Delta(upstream, existing, now);
    if d != [] {
      assert d[0] in d;
    }
  }

  lemma {:induction false} InsertDependenciesKeys(deps: map<VersionKey, seq<Dependency>>, rows: seq<DependencyRow>)
    ensures forall k :: k in InsertDependencies(deps, rows) ==> k in deps || RowsFor(rows, k) != []
    decreases |rows|
  {
    if rows != [] {
      var next := deps[rows[0].version := DepsOf(deps, rows[0].version) + [rows[0].dep]];
      InsertDependenciesKeys(next, rows[1..]);
    }
  }

  lemma NumbersPrefix(a: seq<Version>, b: seq<Version>)
    requires a <= b
    ensures forall n :: n in Numbers(a) ==> n in Numbers(b)
  {
    forall n | n in Numbers(a) ensures n in Numbers(b) {
      var i :| 0 <= i < |a| && Numbers(a)[i] == n;
      assert Numbers(b)[i] == n;
    }
  }

  /** Once the metadata and the version list are fetched, a sync is Persist. */
  lemma SyncPersists(s: Store, up: Adapter, ecosystem: string, name: string, now: Time,
                     c: Canonical, upstream: seq<VersionInfo>)
    requires up.packageMetadata(name) == Done(Some(c))
    requires up.versionsMetadata(WithEcosystem(c, ecosystem)) == Done(upstream)
    ensures SyncSpec(s, up, ecosystem, name, now) == Persist(s, up, name, WithEcosystem(c, ecosystem), upstream, now)
  {
  }

  /** The dependency rows Persist leaves behind when it inserts versions. */
  lemma DependenciesAfterDelta(s: Store, up: Adapter, name: string, meta: Canonical, upstream: seq<VersionInfo>,
                               now: Time, k: VersionKey)
    requires Distinct(Numbers(VersionsOf(s.versions, meta.name)))
    ensures var p := meta.name;
      var stored := VersionsOf(s.versions, p);
      var all := InsertVersions(stored, Delta(upstream, Numbers(stored), now));
      var deps := InsertDependencies(s.dependencies, Flatten(PendingDependencies(up, name, meta, p, all, s.dependencies)));
      DepsOf(deps, k) ==
        if k.package == p && k.number in Numbers(all)
        then DepsOf(s.dependencies, k) + Added(up, name, meta, s.dependencies, k)
        else DepsOf(s.dependencies, k)
  {
    var p := meta.name;
    var stored := VersionsOf(s.versions, p);
    var all := InsertVersions(stored, Delta(upstream, Numbers(stored), now));
    var rows := Flatten(PendingDependencies(up, name, meta, p, all, s.dependencies));
    InsertDependenciesAt(s.dependencies, rows, k);
    PendingDependenciesFor(up, name, meta, p, all, s.dependencies, k);
  }

  /** The dependency rows after a sync that fetched `c` and `upstream`: a version
      of the package that had rows keeps exactly them; one that had none gets
      what its fetch returned, or still none when the fetch raised; nothing is
      fetched at all when no version was inserted; other versions are untouched. */
  lemma SyncDependencies(s: Store, up: Adapter, ecosystem: string, name: string, now: Time,
                         c: Canonical, upstream: seq<VersionInfo>, k: VersionKey)
    requires ValidStore(s)
    requires up.packageMetadata(name) == Done(Some(c))
    requires up.versionsMetadata(WithEcosystem(c, ecosystem)) == Done(upstream)
    ensures var s' := SyncSpec(s, up, ecosystem, name, now).0;
      DepsOf(s'.dependencies, k) ==
        if HasNewVersions(s, c.name, upstream) && k.package == c.name && k.number in Numbers(VersionsOf(s'.versions, c.name))
        then DepsOf(s.dependencies, k) + Added(up, name, WithEcosystem(c, ecosystem), s.dependencies, k)
        else DepsOf(s.dependencies, k)
  {
    var meta := WithEcosystem(c, ecosystem);
    var p := c.name;
    var stored := VersionsOf(s.versions, p);
    var pending := Delta(upstream, Numbers(stored), now);
    DeltaEmpty(upstream, Numbers(stored), now);
    SyncPersists(s, up, ecosystem, name, now, c, upstream);
    if pending != [] {
      PersistInserting(s, up, name, meta, upstream, now);
      assert Distinct(Numbers(stored));
      DependenciesAfterDelta(s, up, name, meta, upstream, now, k);
    } else {
      PersistStamping(s, up, name, meta, upstream, now);
    }
  }

  /** The numbers of the delta are exactly the upstream numbers not yet stored. */
  lemma DeltaNumbers(upstream: seq<VersionInfo>, existing: seq<string>, now: Time)
    ensures forall n :: n in Numbers(Delta(upstream, existing, now)) <==> n in InfoNumbers(upstream) && n !in existing
  {
    var pending := Delta(upstream, existing, now);
    forall n | n in InfoNumbers(upstream) && n !in existing ensures n in Numbers(pending) {
      var i :| 0 <= i < |upstream| && InfoNumbers(upstream)[i] == n;
      assert upstream[i] in upstream;
      var j :| 0 <= j < |pending| && pending[j] == Row(upstream[i], now);
      assert Numbers(pending)[j] == n;
    }
    forall n | n in Numbers(pending) ensures n in InfoNumbers(upstream) && n !in existing {
      var j :| 0 <= j < |pending| && Numbers(pending)[j] == n;
      assert pending[j] in pending;
      var i :| 0 <= i < |upstream| && pending[j] == Row(upstream[i], now);
      assert InfoNumbers(upstream)[i] == n;
    }
  }

  /** Versions after a sync: the old rows are kept, in place, and the stored
      numbers are the old numbers together with every upstream number;
      other packages' versions are untouched. */
  lemma SyncVersions(s: Store, up: Adapter, ecosystem: string, name: string, now: Time,
                     c: Canonical, upstream: seq<VersionInfo>)
    requires up.packageMetadata(name) == Done(Some(c))
    requires up.versionsMetadata(WithEcosystem(c, ecosystem)) == Done(upstream)
    ensures var s' := SyncSpec(s, up, ecosystem, name, now).0;
      && VersionsOf(s.versions, c.name) <= VersionsOf(s'.versions, c.name)
      && (forall n :: n in Numbers(VersionsOf(s'.versions, c.name)) <==>
                      n in Numbers(VersionsOf(s.versions, c.name)) || n in InfoNumbers(upstream))
      && (forall q :: q != c.name ==> VersionsOf(s'.versions, q) == VersionsOf(s.versions, q))
  {
    var p := c.name;
    var stored := VersionsOf(s.versions, p);
    var pending := Delta(upstream, Numbers(stored), now);
    SyncPersists(s, up, ecosystem, name, now, c, upstream);
    if pending != [] {
      PersistInserting(s, up, name, WithEcosystem(c, ecosystem), upstream, now);
    } else {
      PersistStamping(s, up, name, WithEcosystem(c, ecosystem), upstream, now);
    }
    VersionsAfterDelta(s.versions, p, upstream, now);
  }

  /** The version rows Persist leaves behind, as a statement about maps alone. */
  lemma VersionsAfterDelta(versions: map<string, seq<Version>>, p: string, upstream: seq<VersionInfo>, now: Time)
    ensures var stored := VersionsOf(versions, p);
      var pending := Delta(upstream, Numbers(stored), now);
      var after := if pending == [] then versions else versions[p := InsertVersions(stored, pending)];
      && stored <= VersionsOf(after, p)
      && (forall n :: n in Numbers(VersionsOf(after, p)) <==> n in Numbers(stored) || n in InfoNumbers(upstream))
      && (forall q :: q != p ==> VersionsOf(after, q) == VersionsOf(versions, q))
  {
    var stored := VersionsOf(versions, p);
    DeltaNumbers(upstream, Numbers(stored), now);
  }

  lemma PersistKeepsDependencyKeys(s: Store, up: Adapter, name: string, meta: Canonical, upstream: seq<VersionInfo>, now: Time)
    requires ValidStore(s)
    ensures var s' := Persist(s, up, name, meta, upstream, now).0;
      forall k :: k in s'.dependencies ==> k.number in Numbers(VersionsOf(s'.versions, k.package))
  {
    var p := meta.name;
    var stored := VersionsOf(s.versions, p);
    var pending := Delta(upstream, Numbers(stored), now);
    var s' := Persist(s, up, name, meta, upstream, now).0;
    if pending != [] {
      var all := InsertVersions(stored, pending);
      assert Distinct(Numbers(stored));
      var rows := Flatten(PendingDependencies(up, name, meta, p, all, s.dependencies));
      assert s'.dependencies == InsertDependencies(s.dependencies, rows);
      assert s'.versions == s.versions[p := all];
      InsertDependenciesKeys(s.dependencies, rows);
      NumbersPrefix(stored, all);
      forall k | k in s'.dependencies ensures k.number in Numbers(VersionsOf(s'.versions, k.package)) {
        if k !in s.dependencies {
          PendingDependenciesFor(up, name, meta, p, all, s.dependencies, k);
        }
      }
    }
  }

  lemma UpdateTwice<K, V>(m: map<K, V>, k: K, a: V, b: V)
    ensures m[k := a][k := b] == m[k := b]
  {
  }

  /** Persist when the upstream brings new versions, in the order the method
      takes its steps: upsert the row, insert versions and dependencies, stamp. */
  lemma PersistInserting(s: Store, up: Adapter, name: string, meta: Canonical, upstream: seq<VersionInfo>, now: Time)
    requires Delta(upstream, Numbers(VersionsOf(s.versions, meta.name)), now) != []
    ensures var p := meta.name;
      var mid := s.packages[p := Upsert(s.packages, meta)];
      var all := InsertVersions(VersionsOf(s.versions, p), Delta(upstream, Numbers(VersionsOf(s.versions, p)), now));
      var pkg := mid[p].(lastSyncedAt := Some(now), versionsCount := |all|);
      Persist(s, up, name, meta, upstream, now) ==
        (Store(mid[p := pkg], s.versions[p := all],
               InsertDependencies(s.dependencies, Flatten(PendingDependencies(up, name, meta, p, all, s.dependencies)))),
         Synced(pkg))
  {
    var p := meta.name;
    var pkg := Upsert(s.packages, meta);
    var all := InsertVersions(VersionsOf(s.versions, p), Delta(upstream, Numbers(VersionsOf(s.versions, p)), now));
    var pkg' := pkg.(lastSyncedAt := Some(now), versionsCount := |all|);
    UpdateTwice(s.packages, p, pkg, pkg');
  }

  /** Persist when every upstream number is stored: upsert the row, then stamp it. */
  lemma PersistStamping(s: Store, up: Adapter, name: string, meta: Canonical, upstream: seq<VersionInfo>, now: Time)
    requires Delta(upstream, Numbers(VersionsOf(s.versions, meta.name)), now) == []
    ensures var p := meta.name;
      var mid := s.packages[p := Upsert(s.packages, meta)];
      var pkg := mid[p].(lastSyncedAt := Some(now));
      Persist(s, up, name, meta, upstream, now) == (Store(mid[p := pkg], s.versions, s.dependencies), Synced(pkg))
  {
    var p := meta.name;
    var pkg := Upsert(s.packages, meta);
    var pkg' := pkg.(lastSyncedAt := Some(now));
    UpdateTwice(s.packages, p, pkg, pkg');
  }

  /** Re-stamping package p with its stored count keeps the invariant. */
  lemma StampKeepsValid(s: Store, p: string, mid: Package, pkg: Package)
    requires ValidStore(s)
    requires pkg.name == p && pkg.versionsCount == |VersionsOf(s.versions, p)|
    ensures ValidStore(s.(packages := s.packages[p := mid][p := pkg]))
  {
    UpdateTwice(s.packages, p, mid, pkg);
  }

  /** Replacing p's versions by a duplicate-free list, with the row counting
      them and every dependency key naming a stored number, keeps the invariant. */
  lemma InsertKeepsValid(s: Store, p: string, mid: Package, pkg: Package, all: seq<Version>,
                         deps: map<VersionKey, seq<Dependency>>)
    requires ValidStore(s)
    requires pkg.name == p && Distinct(Numbers(all)) && pkg.versionsCount == |all|
    requires forall k :: k in deps ==> k.number in Numbers(VersionsOf(s.versions[p := all], k.package))
    ensures ValidStore(Store(s.packages[p := mid][p := pkg], s.versions[p := all], deps))
  {
    UpdateTwice(s.packages, p, mid, pkg);
  }

  lemma PersistPreservesValid(s: Store, up: Adapter, name: string, meta: Canonical, upstream: seq<VersionInfo>, now: Time)
    requires ValidStore(s)
    ensures ValidStore(Persist(s, up, name, meta, upstream, now).0)
  {
    var p := meta.name;
    var mid := Upsert(s.packages, meta);
    var stored := VersionsOf(s.versions, p);
    var pending := Delta(upstream, Numbers(stored), now);
    assert p !in s.packages ==> stored == [];
    if pending == [] {
      PersistStamping(s, up, name, meta, upstream, now);
      StampKeepsValid(s, p, mid, mid.(lastSyncedAt := Some(now)));
    } else {
      PersistInserting(s, up, name, meta, upstream, now);
      PersistKeepsDependencyKeys(s, up, name, meta, upstream, now);
      var all := InsertVersions(stored, pending);
      assert Distinct(Numbers(stored));
      var deps := InsertDependencies(s.dependencies, Flatten(PendingDependencies(up, name, meta, p, all, s.dependencies)));
      InsertKeepsValid(s, p, mid, mid.(lastSyncedAt := Some(now), versionsCount := |all|), all, deps);
    }
  }

  /** Every sync keeps the store invariant. */
  lemma SyncPreservesValid(s: Store, up: Adapter, ecosystem: string, name: string, now: Time)
    requires ValidStore(s)
    ensures ValidStore(SyncSpec(s, up, ecosystem, name, now).0)
  {
    var fetched := up.packageMetadata(name);
    if fetched.Done? && fetched.value.Some? {
      var meta := WithEcosystem(fetched.value.value, ecosystem);
      var versions := up.versionsMetadata(meta);
      if versions.Done? {
        PersistPreservesValid(s, up, name, meta, versions.value, now);
      }
    }
  }
  /** What a successful sync writes into the package row: the canonical
      columns over the old row (or a new row), stamped with the time, with
      `versions_count` the number of the package's stored versions. */
  lemma SyncedRow(s: Store, up: Adapter, ecosystem: string, name: string, now: Time)
    requires ValidStore(s)
    requires SyncSpec(s, up, ecosystem, name, now).1.Synced?
    ensures var meta := WithEcosystem(up.packageMetadata(name).value.value, ecosystem);
      var r := SyncSpec(s, up, ecosystem, name, now);
      var pkg := Upsert(s.packages, meta);
      && r.1.package == pkg.(lastSyncedAt := Some(now), versionsCount := r.1.package.versionsCount)
      && r.1.package.versionsCount == |VersionsOf(r.0.versions, meta.name)|
  {
    SyncPreservesValid(s, up, ecosystem, name, now);
  }


  /** A second `Persist` with the same upstream, once every upstream number is
      stored, only moves `last_synced_at`. */
  lemma PersistAgain(s: Store, up: Adapter, name: string, meta: Canonical, upstream: seq<VersionInfo>, now: Time)
    requires meta.name in s.packages
    requires forall v :: v in upstream ==> v.number in Numbers(VersionsOf(s.versions, meta.name))
    requires forall k :: k in PackageAttributes(meta) ==> k in s.packages[meta.name].attrs && s.packages[meta.name].attrs[k] == PackageAttributes(meta)[k]
    ensures var (s', o) := Persist(s, up, name, meta, upstream, now);
      && s'.versions == s.versions
      && s'.dependencies == s.dependencies
      && s'.packages == s.packages[meta.name := s.packages[meta.name].(lastSyncedAt := Some(now))]
      && o == Synced(s.packages[meta.name].(lastSyncedAt := Some(now)))
  {
    var p := meta.name;
    DeltaEmpty(upstream, Numbers(VersionsOf(s.versions, p)), now);
    var old_ := s.packages[p];
    assert old_.attrs + PackageAttributes(meta) == old_.attrs;
  }

  /** Re-running a sync against an unchanged upstream inserts no version and no
      dependency row and leaves the package's attributes and `versions_count`
      as they were; only `last_synced_at` moves. */
  lemma SyncIdempotent(s: Store, up: Adapter, ecosystem: string, name: string, t1: Time, t2: Time)
    requires ValidStore(s)
    ensures var (s1, o1) := SyncSpec(s, up, ecosystem, name, t1);
      var (s2, o2) := SyncSpec(s1, up, ecosystem, name, t2);
      && s2.versions == s1.versions
      && s2.dependencies == s1.dependencies
      && (o1.Synced? <==> o2.Synced?)
      && (!o1.Synced? ==> s2 == s1 && o2 == o1)
      && (o1.Synced? ==> o2.package == o1.package.(lastSyncedAt := Some(t2)) &&
                          s2.packages == s1.packages[o1.package.name := o2.package])
  {
    var fetched := up.packageMetadata(name);
    if fetched.Done? && fetched.value.Some? {
      var c := fetched.value.value;
      var meta := WithEcosystem(c, ecosystem);
      var versions := up.versionsMetadata(meta);
      if versions.Done? {
        var upstream := versions.value;
        var p := c.name;
        var (s1, o1) := Persist(s, up, name, meta, upstream, t1);
        SyncPersists(s, up, ecosystem, name, t1, c, upstream);
        assert o1.package.name == p;
        SyncVersions(s, up, ecosystem, name, t1, c, upstream);
        var stored1 := VersionsOf(s1.versions, p);
        forall v | v in upstream ensures v.number in Numbers(stored1) {
          var i :| 0 <= i < |upstream| && upstream[i] == v;
          assert InfoNumbers(upstream)[i] == v.number;
        }
        SyncPersists(s1, up, ecosystem, name, t2, c, upstream);
        PersistAgain(s1, up, name, meta, upstream, t2);
      }
    }
  }

  /** A version whose dependency fetch raised (or returned nothing) keeps no rows
      and stays eligible: the next sync that inserts some version fetches it
      again and stores what that fetch returns, while a sync that inserts no
      version does not fetch it at all. */
  lemma DependencyFetchRetried(s: Store, up1: Adapter, up2: Adapter, ecosystem: string, name: string,
                               t1: Time, t2: Time, c: Canonical, vs1: seq<VersionInfo>, vs2: seq<VersionInfo>, number: string)
    requires ValidStore(s)
    requires up1.packageMetadata(name) == Done(Some(c)) && up2.packageMetadata(name) == Done(Some(c))
    requires up1.versionsMetadata(WithEcosystem(c, ecosystem)) == Done(vs1)
    requires up2.versionsMetadata(WithEcosystem(c, ecosystem)) == Done(vs2)
    requires DepsOf(s.dependencies, VersionKey(c.name, number)) == []
    requires up1.dependenciesMetadata(name, number, WithEcosystem(c, ecosystem)) in {Raised, Done([])}
    ensures var s1 := SyncSpec(s, up1, ecosystem, name, t1).0;
      var s2 := SyncSpec(s1, up2, ecosystem, name, t2).0;
      var k := VersionKey(c.name, number);
      && DepsOf(s1.dependencies, k) == []
      && (!HasNewVersions(s1, c.name, vs2) ==> DepsOf(s2.dependencies, k) == [])
      && (HasNewVersions(s1, c.name, vs2) && number in Numbers(VersionsOf(s1.versions, c.name)) &&
          up2.dependenciesMetadata(name, number, WithEcosystem(c, ecosystem)).Done? ==>
            DepsOf(s2.dependencies, k) == up2.dependenciesMetadata(name, number, WithEcosystem(c, ecosystem)).value)
  {
    var k := VersionKey(c.name, number);
    var meta := WithEcosystem(c, ecosystem);
    var s1 := SyncSpec(s, up1, ecosystem, name, t1).0;
    SyncDependencies(s, up1, ecosystem, name, t1, c, vs1, k);
    assert Added(up1, name, meta, s.dependencies, k) == [];
    assert DepsOf(s1.dependencies, k) == [];
    SyncPreservesValid(s, up1, ecosystem, name, t1);
    SyncDependencies(s1, up2, ecosystem, name, t2, c, vs2, k);
  }

  // ---------------------------------------------------------------------
  // sync_packages: the rescuing loop

  /** The rescuing loop of sync_packages (lines 69-78), for any per-name
      sync `step`: every name is synced in turn, the i-th at `times[i]`; a
      name whose sync failed is logged and the loop goes on. Returns the
      final store and the logged names, in order. */
  function Run(s: Store, step: (Store, string, Time) -> (Store, SyncOutcome), names: seq<string>, times: seq<Time>): (Store, seq<string>)
    requires |times| == |names|
    decreases |names|
  {
    if names == [] then (s, [])
    else
      var n := |names| - 1;
      var before := Run(s, step, names[..n], times[..n]);
      var after := step(before.0, names[n], times[n]);
      (after.0, if after.1 == Failed then before.1 + [names[n]] else before.1)
  }

  /** The adapter object `ecosystem_class.new(self)` (lines 149-155). Its
      calls go to the network when they are made, so what it answers depends
      on the moment: `up(t)` is what it answers at time t. */
  type Upstream = Time -> Adapter

  /** sync_package as the step of the loop: the sync at time t sees what
      the adapter answers at t. */
  function SyncStep(up: Upstream, ecosystem: string): (Store, string, Time) -> (Store, SyncOutcome)
  {
    (st: Store, x: string, t: Time) => SyncSpec(st, up(t), ecosystem, x, t)
  }

  /** sync_packages (lines 69-78) as a function of the store before it. */
  function SyncAll(s: Store, up: Upstream, ecosystem: string, names: seq<string>, times: seq<Time>): (Store, seq<string>)
    requires |times| == |names|
  {
    Run(s, SyncStep(up, ecosystem), names, times)
  }

  lemma {:induction false} RunPreservesValid(s: Store, step: (Store, string, Time) -> (Store, SyncOutcome), names: seq<string>, times: seq<Time>)
    requires ValidStore(s)
    requires |times| == |names|
    requires forall st: Store, x: string, t: Time :: ValidStore(st) ==> ValidStore(step(st, x, t).0)
    ensures ValidStore(Run(s, step, names, times).0)
    decreases |names|
  {
    if names != [] {
      var n := |names| - 1;
      RunPreservesValid(s, step, names[..n], times[..n]);
    }
  }

  lemma {:induction false} SyncAllPreservesValid(s: Store, up: Upstream, ecosystem: string, names: seq<string>, times: seq<Time>)
    requires ValidStore(s)
    requires |times| == |names|
    ensures ValidStore(SyncAll(s, up, ecosystem, names, times).0)
  {
    var step := SyncStep(up, ecosystem);
    forall st: Store, x: string, t: Time | ValidStore(st) ensures ValidStore(step(st, x, t).0) {
      SyncPreservesValid(st, up(t), ecosystem, x, t);
    }
    RunPreservesValid(s, step, names, times);
  }

  lemma {:induction false} RunLogsOnlyItsNames(s: Store, step: (Store, string, Time) -> (Store, SyncOutcome), names: seq<string>, times: seq<Time>)
    requires |times| == |names|
    ensures forall x :: x in Run(s, step, names, times).1 ==> x in names
    decreases |names|
  {
    if names != [] {
      var n := |names| - 1;
      RunLogsOnlyItsNames(s, step, names[..n], times[..n]);
      assert forall x :: x in names[..n] ==> x in names;
    }
  }

  /** Every logged name is one of the batch's names. */
  lemma SyncAllLogsOnlyItsNames(s: Store, up: Upstream, ecosystem: string, names: seq<string>, times: seq<Time>)
    requires |times| == |names|
    ensures forall x :: x in SyncAll(s, up, ecosystem, names, times).1 ==> x in names
  {
    RunLogsOnlyItsNames(s, SyncStep(up, ecosystem), names, times);
  }

  function Without<T>(xs: seq<T>, i: nat): seq<T>
    requires i < |xs|
  {
    xs[..i] + xs[i + 1..]
  }

  /** Dropping an element before the last keeps the last one last. */
  lemma WithoutBeforeLast<T>(xs: seq<T>, i: nat)
    requires i < |xs| - 1
    ensures Without(xs, i)[..|xs| - 2] == Without(xs[..|xs| - 1], i)
    ensures Without(xs, i)[|xs| - 2] == xs[|xs| - 1]
  {
  }

  lemma {:induction false} RunSkipsFailing(s: Store, step: (Store, string, Time) -> (Store, SyncOutcome), names: seq<string>, times: seq<Time>, i: nat)
    requires |times| == |names|
    requires i < |names|
    requires forall st: Store :: step(st, names[i], times[i]) == (st, Failed)
    ensures Run(s, step, names, times).0 == Run(s, step, Without(names, i), Without(times, i)).0
    ensures names[i] in Run(s, step, names, times).1
    decreases |names|
  {
    var n := |names| - 1;
    if i == n {
      assert Without(names, i) == names[..n];
      assert Without(times, i) == times[..n];
      RunSkipsLast(s, step, names, times);
    } else {
      assert names[..n][i] == names[i] && times[..n][i] == times[i];
      RunSkipsFailing(s, step, names[..n], times[..n], i);
      WithoutBeforeLast(names, i);
      WithoutBeforeLast(times, i);
      RunKeepsLogged(s, step, names, times, names[i]);
    }
  }

  /** A last step that fails without a change is logged and changes nothing. */
  lemma RunSkipsLast(s: Store, step: (Store, string, Time) -> (Store, SyncOutcome), names: seq<string>, times: seq<Time>)
    requires |times| == |names| && names != []
    requires forall st: Store :: step(st, names[|names| - 1], times[|names| - 1]) == (st, Failed)
    ensures Run(s, step, names, times).0 == Run(s, step, names[..|names| - 1], times[..|names| - 1]).0
    ensures names[|names| - 1] in Run(s, step, names, times).1
  {
    var n := |names| - 1;
    var before := Run(s, step, names[..n], times[..n]);
    assert step(before.0, names[n], times[n]) == (before.0, Failed);
  }

  /** A name logged by a prefix of the batch stays logged. */
  lemma RunKeepsLogged(s: Store, step: (Store, string, Time) -> (Store, SyncOutcome), names: seq<string>, times: seq<Time>, x: string)
    requires |times| == |names| && names != []
    requires x in Run(s, step, names[..|names| - 1], times[..|names| - 1]).1
    ensures x in Run(s, step, names, times).1
  {
  }

  /** A name whose metadata fetch raises when it is synced is logged and
      changes nothing: the batch ends in the same store as the batch without
      that name, and the names after it are still synced. */
  lemma RaisingNameIsSkipped(s: Store, up: Upstream, ecosystem: string, names: seq<string>, times: seq<Time>, i: nat)
    requires |times| == |names|
    requires i < |names| && up(times[i]).packageMetadata(names[i]).Raised?
    ensures SyncAll(s, up, ecosystem, names, times).0 == SyncAll(s, up, ecosystem, Without(names, i), Without(times, i)).0
    ensures names[i] in SyncAll(s, up, ecosystem, names, times).1
  {
    var step := SyncStep(up, ecosystem);
    forall st: Store ensures step(st, names[i], times[i]) == (st, Failed) {
      assert step(st, names[i], times[i]) == SyncSpec(st, up(times[i]), ecosystem, names[i], times[i]);
    }
    RunSkipsFailing(s, step, names, times, i);
  }

  lemma RunSnoc(s: Store, step: (Store, string, Time) -> (Store, SyncOutcome), names: seq<string>, times: seq<Time>, x: string, t: Time)
    requires |times| == |names|
    ensures var before := Run(s, step, names, times);
      var after := step(before.0, x, t);
      Run(s, step, names + [x], times + [t]) == (after.0, if after.1 == Failed then before.1 + [x] else before.1)
  {
    assert (names + [x])[..|names|] == names;
    assert (times + [t])[..|names|] == times;
  }

  /** One more name at the end of a batch is one more sync. */
  lemma SyncAllSnoc(s: Store, up: Upstream, ecosystem: string, names: seq<string>, times: seq<Time>, x: string, t: Time)
    requires |times| == |names|
    ensures var before := SyncAll(s, up, ecosystem, names, times);
      var after := SyncSpec(before.0, up(t), ecosystem, x, t);
      SyncAll(s, up, ecosystem, names + [x], times + [t]) ==
        (after.0, if after.1 == Failed then before.1 + [x] else before.1)
  {
    RunSnoc(s, SyncStep(up, ecosystem), names, times, x, t);
  }

  /** The batch scenario: of ["a", "b", "c"], "b" raises when it is synced;
      "a" and "c" are synced as if alone, and only "b" is logged. */
  lemma BatchScenario(s: Store, up: Upstream, ecosystem: string, ta: Time, tb: Time, tc: Time)
    requires up(tb).packageMetadata("b").Raised?
    requires !up(ta).packageMetadata("a").Raised? && !up(tc).packageMetadata("c").Raised?
    requires forall c :: up(ta).versionsMetadata(c).Done?
    requires forall c :: up(tc).versionsMetadata(c).Done?
    ensures var s1 := SyncSpec(s, up(ta), ecosystem, "a", ta).0;
      SyncAll(s, up, ecosystem, ["a", "b", "c"], [ta, tb, tc]) == (SyncSpec(s1, up(tc), ecosystem, "c", tc).0, ["b"])
  {
    var ra := SyncSpec(s, up(ta), ecosystem, "a", ta);
    BatchPrefix(s, up, ecosystem, ta, tb);
    var rc := SyncSpec(ra.0, up(tc), ecosystem, "c", tc);
    assert rc.1 != Failed;
    SyncAllSnoc(s, up, ecosystem, ["a", "b"], [ta, tb], "c", tc);
    assert ["a", "b"] + ["c"] == ["a", "b", "c"] && [ta, tb] + [tc] == [ta, tb, tc];
  }

  lemma BatchPrefix(s: Store, up: Upstream, ecosystem: string, ta: Time, tb: Time)
    requires up(tb).packageMetadata("b").Raised?
    requires !up(ta).packageMetadata("a").Raised?
    requires forall c :: up(ta).versionsMetadata(c).Done?
    ensures SyncAll(s, up, ecosystem, ["a", "b"], [ta, tb]) == (SyncSpec(s, up(ta), ecosystem, "a", ta).0, ["b"])
  {
    var ra := SyncSpec(s, up(ta), ecosystem, "a", ta);
    BatchFirst(s, up, ecosystem, ta);
    SyncAllSnoc(s, up, ecosystem, ["a"], [ta], "b", tb);
    assert ["a"] + ["b"] == ["a", "b"] && [ta] + [tb] == [ta, tb];
    var empty: seq<string> := [];
    assert SyncSpec(ra.0, up(tb), ecosystem, "b", tb) == (ra.0, Failed);
    assert empty + ["b"] == ["b"];
  }

  lemma BatchFirst(s: Store, up: Upstream, ecosystem: string, ta: Time)
    requires !up(ta).packageMetadata("a").Raised?
    requires forall c :: up(ta).versionsMetadata(c).Done?
    ensures SyncAll(s, up, ecosystem, ["a"], [ta]) == (SyncSpec(s, up(ta), ecosystem, "a", ta).0, [])
  {
    var empty: seq<string> := [];
    var none: seq<Time> := [];
    assert SyncSpec(s, up(ta), ecosystem, "a", ta).1 != Failed;
    SyncAllSnoc(s, up, ecosystem, empty, none, "a", ta);
    assert empty + ["a"] == ["a"] && none + [ta] == [ta];
  }

  // ---------------------------------------------------------------------
  // An end-to-end scenario

  function ScenarioUpstream(numbers: seq<string>, deps: string -> seq<Dependency>): Adapter
  {
    Adapter(Done(["foo"]), Done([]),
      n => if n == "foo" then Done(Some(Canonical("foo", map[]))) else Done(None),
      c => Done(seq(|numbers|, i requires 0 <= i < |numbers| => VersionInfo(numbers[i], map[]))),
      (n, v, c) => Done(deps(v)))
  }

  const Bar := Dependency(map["name" := Str("bar"), "requirements" := Str(">=1.0")])

  function FirstUpstream(): Adapter
  {
    ScenarioUpstream(["1.0.0"], v => [])
  }

  function SecondUpstream(): Adapter
  {
    ScenarioUpstream(["1.0.0", "2.0.0"], v => if v == "2.0.0" then [Bar] else [])
  }

  /** The first sync of "foo" stores its one version and no dependency. */
  lemma EndToEndFirstSync(t1: Time)
    ensures var s1 := SyncSpec(Store(map[], map[], map[]), FirstUpstream(), "npm", "foo", t1).0;
      && s1.versions == map["foo" := [Version("1.0.0", map[], t1)]]
      && s1.dependencies == map[]
      && "foo" in s1.packages && s1.packages["foo"].versionsCount == 1
  {
    var up1 := FirstUpstream();
    var s0 := Store(map[], map[], map[]);
    var meta := WithEcosystem(Canonical("foo", map[]), "npm");
    var vs1 := [VersionInfo("1.0.0", map[])];
    FirstUpstreamLists(meta);
    SyncPersists(s0, up1, "npm", "foo", t1, Canonical("foo", map[]), vs1);
    FirstPersist(meta, t1);
  }

  lemma FirstUpstreamLists(meta: Canonical)
    ensures FirstUpstream().packageMetadata("foo") == Done(Some(Canonical("foo", map[])))
    ensures FirstUpstream().versionsMetadata(meta) == Done([VersionInfo("1.0.0", map[])])
  {
    var listed := ["1.0.0"];
    assert seq(|listed|, i requires 0 <= i < |listed| => VersionInfo(listed[i], map[])) == [VersionInfo("1.0.0", map[])];
  }

  /** What the first sync persists into the empty store. */
  lemma FirstPersist(meta: Canonical, t1: Time)
    requires meta == WithEcosystem(Canonical("foo", map[]), "npm")
    ensures var s1 := Persist(Store(map[], map[], map[]), FirstUpstream(), "foo", meta, [VersionInfo("1.0.0", map[])], t1).0;
      && s1.versions == map["foo" := [Version("1.0.0", map[], t1)]]
      && s1.dependencies == map[]
      && "foo" in s1.packages && s1.packages["foo"].versionsCount == 1
  {
    var s0 := Store(map[], map[], map[]);
    var vs1 := [VersionInfo("1.0.0", map[])];
    FirstDelta(t1);
    FirstDependencies(meta, t1);
    PersistInserting(s0, FirstUpstream(), "foo", meta, vs1, t1);
  }

  /** Into the empty store, the first delta is the one row of 1.0.0. */
  lemma FirstDelta(t1: Time)
    ensures VersionsOf(map[], "foo") == [] && Numbers([]) == []
    ensures Delta([VersionInfo("1.0.0", map[])], [], t1) == [Version("1.0.0", map[], t1)]
    ensures InsertVersions([], [Version("1.0.0", map[], t1)]) == [Version("1.0.0", map[], t1)]
  {
    var vs1 := [VersionInfo("1.0.0", map[])];
    assert vs1[..0] == [];
    var r1 := Row(vs1[0], t1);
    assert Delta(vs1, [], t1) == [r1];
  }

  /** 1.0.0 reports no dependencies, so the first sync inserts none. */
  lemma FirstDependencies(meta: Canonical, t1: Time)
    ensures PendingDependencies(FirstUpstream(), "foo", meta, "foo", [Version("1.0.0", map[], t1)], map[]) == []
    ensures InsertDependencies(map[], Flatten<DependencyRow>([])) == map[]
  {
    var all1 := [Version("1.0.0", map[], t1)];
    assert all1[..0] == [];
  }

  /** The second sync's version delta is 2.0.0 alone, appended after 1.0.0. */
  lemma EndToEndSecondVersions(t1: Time, t2: Time)
    ensures var vs2 := [VersionInfo("1.0.0", map[]), VersionInfo("2.0.0", map[])];
      var r1 := Version("1.0.0", map[], t1);
      var r2 := Version("2.0.0", map[], t2);
      && Delta(vs2, Numbers([r1]), t2) == [r2]
      && InsertVersions([r1], [r2]) == [r1, r2]
      && Numbers([r1, r2]) == ["1.0.0", "2.0.0"]
  {
    var vs2 := [VersionInfo("1.0.0", map[]), VersionInfo("2.0.0", map[])];
    var r1 := Version("1.0.0", map[], t1);
    var r2 := Row(vs2[1], t2);
    assert Numbers([r1]) == ["1.0.0"];
    assert vs2[..1] == [vs2[0]] && vs2[..1][..0] == [];
    assert Delta(vs2[..1], ["1.0.0"], t2) == [];
    assert InsertVersion([r1], r2) == [r1, r2];
  }

  /** The second sync's dependency pass fetches both versions and stores bar for 2.0.0. */
  lemma EndToEndSecondDependencies(meta: Canonical, t1: Time, t2: Time)
    ensures var all2 := [Version("1.0.0", map[], t1), Version("2.0.0", map[], t2)];
      var empty: map<VersionKey, seq<Dependency>> := map[];
      InsertDependencies(empty, Flatten(PendingDependencies(SecondUpstream(), "foo", meta, "foo", all2, empty))) ==
        map[VersionKey("foo", "2.0.0") := [Bar]]
  {
    var up2 := SecondUpstream();
    var all2 := [Version("1.0.0", map[], t1), Version("2.0.0", map[], t2)];
    var empty: map<VersionKey, seq<Dependency>> := map[];
    assert all2[..1] == [all2[0]] && all2[..1][..0] == [];
    var k2 := VersionKey("foo", "2.0.0");
    assert up2.dependenciesMetadata("foo", "1.0.0", meta) == Done([]);
    assert up2.dependenciesMetadata("foo", "2.0.0", meta) == Done([Bar]);
    assert PendingDependencies(up2, "foo", meta, "foo", all2[..1], empty) == [];
    assert PendingDependencies(up2, "foo", meta, "foo", all2, empty) == [Tag(k2, [Bar])];
    var row := DependencyRow(k2, Bar);
    assert Flatten([Tag(k2, [Bar])]) == [row];
    assert [row][1..] == [];
    assert DepsOf(empty, k2) + [Bar] == [Bar];
    assert InsertDependencies(empty, [row]) == InsertDependencies(empty[k2 := DepsOf(empty, k2) + [Bar]], [row][1..]);
  }

  lemma SecondUpstreamLists(meta: Canonical)
    ensures SecondUpstream().packageMetadata("foo") == Done(Some(Canonical("foo", map[])))
    ensures SecondUpstream().versionsMetadata(meta) == Done([VersionInfo("1.0.0", map[]), VersionInfo("2.0.0", map[])])
  {
    var listed := ["1.0.0", "2.0.0"];
    assert seq(|listed|, i requires 0 <= i < |listed| => VersionInfo(listed[i], map[])) ==
           [VersionInfo("1.0.0", map[]), VersionInfo("2.0.0", map[])];
  }

  /** The second sync, run on any store holding what the first sync left for "foo". */
  lemma EndToEndSecondSync(s1: Store, t1: Time, t2: Time)
    requires s1.versions == map["foo" := [Version("1.0.0", map[], t1)]]
    requires s1.dependencies == map[]
    ensures var s2 := SyncSpec(s1, SecondUpstream(), "npm", "foo", t2).0;
      && Numbers(VersionsOf(s2.versions, "foo")) == ["1.0.0", "2.0.0"]
      && s2.packages["foo"].versionsCount == 2
      && DepsOf(s2.dependencies, VersionKey("foo", "2.0.0")) == [Bar]
      && DepsOf(s2.dependencies, VersionKey("foo", "1.0.0")) == []
  {
    var up2 := SecondUpstream();
    var meta := WithEcosystem(Canonical("foo", map[]), "npm");
    var vs2 := [VersionInfo("1.0.0", map[]), VersionInfo("2.0.0", map[])];
    SecondUpstreamLists(meta);
    SyncPersists(s1, up2, "npm", "foo", t2, Canonical("foo", map[]), vs2);
    EndToEndSecondVersions(t1, t2);
    EndToEndSecondDependencies(meta, t1, t2);
    var r1 := Version("1.0.0", map[], t1);
    var r2 := Version("2.0.0", map[], t2);
    var stored := VersionsOf(s1.versions, "foo");
    assert stored == [r1];
    var all := InsertVersions(stored, Delta(vs2, Numbers(stored), t2));
    assert all == [r1, r2];
    PersistInserting(s1, up2, "foo", meta, vs2, t2);
    var s2 := SyncSpec(s1, up2, "npm", "foo", t2).0;
    assert s2.versions == s1.versions["foo" := [r1, r2]];
    assert s2.dependencies == map[VersionKey("foo", "2.0.0") := [Bar]];
  }

  /** "foo" first reports 1.0.0 and no dependencies, then 1.0.0 and 2.0.0 with
      2.0.0 depending on bar: the second sync adds 2.0.0 with its one
      dependency, leaves 1.0.0 without any, and the version count becomes 2. */
  lemma EndToEndScenario(t1: Time, t2: Time)
    ensures var s1 := SyncSpec(Store(map[], map[], map[]), FirstUpstream(), "npm", "foo", t1).0;
      var s2 := SyncSpec(s1, SecondUpstream(), "npm", "foo", t2).0;
      && Numbers(VersionsOf(s2.versions, "foo")) == ["1.0.0", "2.0.0"]
      && s2.packages["foo"].versionsCount == 2
      && DepsOf(s2.dependencies, VersionKey("foo", "2.0.0")) == [Bar]
      && DepsOf(s2.dependencies, VersionKey("foo", "1.0.0")) == []
  {
    EndToEndFirstSync(t1);
    EndToEndSecondSync(SyncSpec(Store(map[], map[], map[]), FirstUpstream(), "npm", "foo", t1).0, t1, t2);
  }
}
