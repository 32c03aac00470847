/** The decision logic of app/controllers/api/v1/packages_controller.rb: the
    request parameters that choose a query, the docker default namespace,
    the miss-then-sync rule of `lookup`, the fallback chain of `show`, the
    branch of `ping`, and the ordering chosen from `sort` and `order`.
    Database queries are parameters: a query yields the rows it finds. */
module PackagesController {
  import opened Values

  /** Request parameters; a key that is absent reads as nil. */
  type Params = map<string, string>

  /** A package row, as far as these rules look at it. */
  datatype Row = Row(name: string, ecosystem: string)

  /** A registry found by name: its id and its ecosystem. */
  datatype RegistryRef = RegistryRef(id: int, ecosystem: string)

  function Param(params: Params, key: string): Option<string>
  {
    if key in params then Some(params[key]) else None
  }

  predicate IsSpace(c: char)
  {
    c == ' ' || c == '\t' || c == '\n' || c == '\r' || c == '\U{B}' || c == '\U{C}'
  }

  /** `blank?` on a string: nothing but white space. */
  predicate Blank(s: string)
  {
    forall i :: 0 <= i < |s| ==> IsSpace(s[i])
  }

  /** `params[key].present?`. */
  predicate Present(params: Params, key: string)
  {
    key in params && !Blank(params[key])
  }

  // ---------------------------------------------------------------------
  // Ordering (lines 13-20, 38-46, and the same block in the other actions)

  datatype SortKey = Column(column: string) | Stargazers
  datatype Ordering = Ordering(key: SortKey, ascending: bool)

  /** The ordering applied to a scope: none unless `sort` or `order` is present;
      the key is `sort` when given (even blank), else `updated_at`, with
      `stargazers_count` read from the repository metadata; ascending exactly
      when `order` is `asc`. Nulls sort last either way. */
  function SortOrder(params: Params): (r: Option<Ordering>)
    ensures r.Some? <==> Present(params, "sort") || Present(params, "order")
    ensures r.Some? ==> (r.value.ascending <==> Param(params, "order") == Some("asc"))
    ensures r.Some? && "sort" !in params ==> r.value.key == Column("updated_at")
    ensures r.Some? && Param(params, "sort") == Some("stargazers_count") ==> r.value.key == Stargazers
    ensures r.Some? && "sort" in params && params["sort"] != "stargazers_count" ==> r.value.key == Column(params["sort"])
  {
    if Present(params, "sort") || Present(params, "order") then
      var sort := if "sort" in params then params["sort"] else "updated_at";
      var key := if Param(params, "sort") == Some("stargazers_count") then Stargazers else Column(sort);
      Some(Ordering(key, Param(params, "order") == Some("asc")))
    else None
  }

  /** Only `sort` and `order` decide the ordering. */
  lemma SortOrderReadsOnlySortAndOrder(a: Params, b: Params)
    requires Param(a, "sort") == Param(b, "sort") && Param(a, "order") == Param(b, "order")
    ensures SortOrder(a) == SortOrder(b)
  {
  }

  // ---------------------------------------------------------------------
  // The docker default namespace (line 33, line 100)

  /** A docker name without a namespace lives under `library/`. */
  function LibraryName(name: string): (r: string)
    ensures '/' in r
    ensures '/' in name ==> r == name
    ensures '/' !in name ==> r == "library/" + name
  {
    if '/' in name then name else
      var r := "library/" + name;
      assert r[7] == '/';
      r
  }

  /** Namespacing twice is namespacing once. */
  lemma LibraryNameIdempotent(name: string)
    ensures LibraryName(LibraryName(name)) == LibraryName(name)
  {
  }

  lemma LibraryNameRedis()
    ensures LibraryName("redis") == "library/redis"
    ensures LibraryName("bitnami/redis") == "bitnami/redis"
  {
    assert "bitnami/redis"[7] == '/';
  }

  /** The parameters after line 33: for ecosystem docker the name gets the
      default namespace; with no name at all `include?` raises. */
  function DockerParams(params: Params): (r: Attempt<Params>)
    ensures r.Raised? <==> Param(params, "ecosystem") == Some("docker") && "name" !in params
    ensures r.Done? && Param(params, "ecosystem") == Some("docker") ==>
      r.value == params["name" := LibraryName(params["name"])]
    ensures Param(params, "ecosystem") != Some("docker") ==> r == Done(params)
  {
    if Param(params, "ecosystem") == Some("docker") then
      if "name" !in params then Raised
      else if '/' in params["name"] then Done(params)
      else Done(params["name" := "library/" + params["name"]])
    else Done(params)
  }

  /** The rewrite only touches the name, and applying it again changes nothing. */
  lemma DockerParamsIdempotent(params: Params)
    requires DockerParams(params).Done?
    ensures var p := DockerParams(params).value;
      && p.Keys == params.Keys
      && (forall k :: k in p && k != "name" ==> p[k] == params[k])
      && DockerParams(p) == Done(p)
  {
    if Param(params, "ecosystem") == Some("docker") {
      LibraryNameIdempotent(params["name"]);
    }
  }

  // ---------------------------------------------------------------------
  // lookup (lines 27-65)

  /** The scopes `lookup` can start from. */
  datatype Query =
    | ByRepositoryUrl(url: string)
    | ByPurl(purl: string)
    | ByName(name: Option<string>, ecosystem: Option<string>)

  /** The rows a lookup renders, and the sync job it enqueued, if any:
      (registry id, package name) for `sync_package_async`. */
  datatype LookupResult = LookupResult(packages: seq<Row>, job: Option<(int, string)>)

  /** The parameters `lookup` goes on with: rewritten only on the name branch. */
  function LookupParams(params: Params): (r: Attempt<Params>)
    ensures r.Raised? <==>
      !Present(params, "repository_url") && !Present(params, "purl") &&
      Param(params, "ecosystem") == Some("docker") && "name" !in params
    ensures r.Done? ==> r.value.Keys == params.Keys && forall k :: k in params && k != "name" ==> r.value[k] == params[k]
    ensures r.Done? && r.value != params ==> Param(params, "ecosystem") == Some("docker") && r.value["name"] == "library/" + params["name"]
  {
    if Present(params, "repository_url") || Present(params, "purl") then Done(params)
    else DockerParams(params)
  }

  /** The scope of lines 28-36, from the parameters after the rewrite. */
  function LookupQuery(params: Params): (q: Query)
    ensures Present(params, "repository_url") ==> q == ByRepositoryUrl(params["repository_url"])
    ensures !Present(params, "repository_url") && Present(params, "purl") ==> q == ByPurl(params["purl"])
    ensures !Present(params, "repository_url") && !Present(params, "purl") ==>
      q.ByName? && q.name == Param(params, "name") && (q.ecosystem.Some? <==> Present(params, "ecosystem"))
  {
    if Present(params, "repository_url") then ByRepositoryUrl(params["repository_url"])
    else if Present(params, "purl") then ByPurl(params["purl"])
    else ByName(Param(params, "name"), if Present(params, "ecosystem") then Some(params["ecosystem"]) else None)
  }

  /** `lookup`. `run` builds a scope and evaluates it with its ordering and
      first page; it raises when building or evaluating the scope raises (as
      `lookup_by_purl` does on a purl it cannot parse). `purlTarget` is what
      PackageURL.parse and the purl-type tables make of a purl (ecosystem,
      package name), raising when the purl does not parse; `registryFor` is
      `Registry.find_by_ecosystem`, giving the registry's id. The request
      raises when the docker rewrite, the scope or the purl parse raises;
      the purl is parsed only after a miss. */
  method Lookup(params: Params, run: (Query, Option<Ordering>) -> Attempt<seq<Row>>,
                purlTarget: string -> Attempt<(string, string)>, registryFor: string -> Option<int>)
    returns (r: Attempt<LookupResult>)
    ensures LookupParams(params).Raised? ==> r.Raised?
    ensures LookupParams(params).Done? ==> var rows := run(LookupQuery(LookupParams(params).value), SortOrder(params));
      (r.Raised? <==> rows.Raised? || (rows == Done([]) && Present(params, "purl") && purlTarget(params["purl"]).Raised?))
    ensures r.Done? ==> var ps := LookupParams(params).value;
      Done(r.value.packages) == run(LookupQuery(ps), SortOrder(params))
    ensures r.Done? && r.value.job.Some? ==> r.value.packages == []
    ensures r.Done? && Present(params, "purl") ==>
      r.value.job == if r.value.packages == [] && registryFor(purlTarget(params["purl"]).value.0).Some?
        then Some((registryFor(purlTarget(params["purl"]).value.0).value, purlTarget(params["purl"]).value.1))
        else None
    ensures r.Done? && !Present(params, "purl") ==> var ps := LookupParams(params).value;
      (r.value.job.Some? <==>
        r.value.packages == [] && Present(ps, "ecosystem") && Present(ps, "name") && registryFor(ps["ecosystem"]).Some?) &&
      (r.value.job.Some? ==> r.value.job.value == (registryFor(ps["ecosystem"]).value, ps["name"]))
  {
    var ps := params;
    var query: Query;
    if Present(ps, "repository_url") {
      query := ByRepositoryUrl(ps["repository_url"]);
    } else if Present(ps, "purl") {
      query := ByPurl(ps["purl"]);
    } else {
      if Param(ps, "ecosystem") == Some("docker") {
        if "name" !in ps {
          return Raised;
        }
        if '/' !in ps["name"] {
          ps := ps["name" := "library/" + ps["name"]];
        }
      }
      query := ByName(Param(ps, "name"), if Present(ps, "ecosystem") then Some(ps["ecosystem"]) else None);
    }
    assert Present(ps, "purl") <==> Present(params, "purl");
    var found := run(query, SortOrder(ps));
    if found.Raised? {
      return Raised;
    }
    var packages := found.value;
    var job: Option<(int, string)> := None;
    if packages == [] {
      if Present(ps, "purl") {
        var target := purlTarget(ps["purl"]);
        if target.Raised? {
          return Raised;
        }
        var (eco, name) := target.value;
        var registry := registryFor(eco);
        if registry.Some? {
          job := Some((registry.value, name));
        }
      } else if Present(ps, "ecosystem") && Present(ps, "name") {
        var registry := registryFor(ps["ecosystem"]);
        if registry.Some? {
          job := Some((registry.value, ps["name"]));
        }
      }
    }
    r := Done(LookupResult(packages, job));
  }

  /** A docker lookup of a bare name searches the `library/` name. */
  lemma DockerLookupSearchesLibrary(params: Params)
    requires !Present(params, "repository_url") && !Present(params, "purl")
    requires Param(params, "ecosystem") == Some("docker") && "name" in params && '/' !in params["name"]
    ensures LookupParams(params).Done?
    ensures LookupQuery(LookupParams(params).value) == ByName(Some("library/" + params["name"]), Some("docker"))
  {
    var ps := LookupParams(params).value;
    assert ps == params["name" := "library/" + params["name"]];
    assert !IsSpace("docker"[0]);
    assert Present(ps, "ecosystem");
  }

  // ---------------------------------------------------------------------
  // show (lines 91-106)

  /** Where `show` looks after the exact name misses. */
  datatype Fallback = NormalizedName(id: string) | ExactName(name: string)

  function FallbackKey(ecosystem: string, id: string): (f: Fallback)
    ensures ecosystem == "pypi" ==> f == NormalizedName(id)
    ensures ecosystem == "docker" && '/' !in id ==> f == ExactName("library/" + id)
    ensures ecosystem != "pypi" && !(ecosystem == "docker" && '/' !in id) ==> f == ExactName(Lower(id))
  {
    if ecosystem == "pypi" then NormalizedName(id)
    else if ecosystem == "docker" && '/' !in id then ExactName("library/" + id)
    else ExactName(Lower(id))
  }

  /** `show`. `registry` is Registry.find_by_name!(registry_id), which raises
      when None; `findByName` and `findByNormalizedName` are the registry's
      package finders, whose bang forms raise when they find nothing. */
  function Show(registry: Option<RegistryRef>, id: string,
                findByName: (int, string) -> Option<Row>, findByNormalizedName: (int, string) -> Option<Row>): (r: Attempt<Row>)
    ensures registry.None? ==> r.Raised?
    ensures registry.Some? && findByName(registry.value.id, id).Some? ==> r == Done(findByName(registry.value.id, id).value)
    ensures registry.Some? && findByName(registry.value.id, id).None? ==>
      var found := match FallbackKey(registry.value.ecosystem, id)
        case NormalizedName(n) => findByNormalizedName(registry.value.id, n)
        case ExactName(n) => findByName(registry.value.id, n);
      r == if found.Some? then Done(found.value) else Raised
  {
    match registry
    case None => Raised
    case Some(reg) =>
      match findByName(reg.id, id)
      case Some(p) => Done(p)
      case None =>
        var found := match FallbackKey(reg.ecosystem, id)
          case NormalizedName(n) => findByNormalizedName(reg.id, n)
          case ExactName(n) => findByName(reg.id, n);
        if found.Some? then Done(found.value) else Raised
  }

  /** Outside pypi and docker, an id that is already lower case has no second
      chance: a miss of the exact name is a miss. */
  lemma ShowLowerCaseMissRaises(registry: RegistryRef, id: string,
                                findByName: (int, string) -> Option<Row>, findByNormalizedName: (int, string) -> Option<Row>)
    requires registry.ecosystem != "pypi" && registry.ecosystem != "docker"
    requires IsLower(id) && findByName(registry.id, id).None?
    ensures Show(Some(registry), id, findByName, findByNormalizedName).Raised?
  {
    LowerOfLower(id);
  }

  /** The docker fallback of `show` and the rewrite of `lookup` agree. */
  lemma ShowDockerAgreesWithLookup(id: string)
    ensures '/' !in id ==> FallbackKey("docker", id) == ExactName(LibraryName(id))
    ensures DockerParams(map["ecosystem" := "docker", "name" := id]) == Done(map["ecosystem" := "docker", "name" := LibraryName(id)])
  {
    var params := map["ecosystem" := "docker", "name" := id];
    assert params["name" := LibraryName(id)] == map["ecosystem" := "docker", "name" := LibraryName(id)];
  }

  /** The fallback ignores the case of the id outside pypi and docker. */
  lemma FallbackIgnoresCase(ecosystem: string, a: string, b: string)
    requires ecosystem != "pypi" && ecosystem != "docker"
    requires Lower(a) == Lower(b)
    ensures FallbackKey(ecosystem, a) == FallbackKey(ecosystem, b)
  {
  }

  // ---------------------------------------------------------------------
  // ping (lines 172-181)

  /** What `ping` enqueues: a resync of the package found, or a sync by name. */
  datatype PingAction = SyncExisting(row: Row) | SyncByName(registryId: int, id: string)
  datatype PingResponse = PingResponse(action: PingAction, message: string)

  function Ping(registry: Option<RegistryRef>, id: string, findByName: (int, string) -> Option<Row>): (r: Attempt<PingResponse>)
    ensures r.Raised? <==> registry.None?
    ensures r.Done? ==> r.value.message == "pong"
    ensures r.Done? ==> (r.value.action.SyncExisting? <==> findByName(registry.value.id, id).Some?)
    ensures r.Done? && findByName(registry.value.id, id).Some? ==> r.value.action == SyncExisting(findByName(registry.value.id, id).value)
    ensures r.Done? && findByName(registry.value.id, id).None? ==> r.value.action == SyncByName(registry.value.id, id)
  {
    match registry
    case None => Raised
    case Some(reg) =>
      var action := match findByName(reg.id, id)
        case Some(p) => SyncExisting(p)
        case None => SyncByName(reg.id, id);
      Done(PingResponse(action, "pong"))
  }
}
