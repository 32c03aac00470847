/** The Bower reference adapter of app/models/ecosystem/bower.rb: a memoised,
    case-folded index of the registry's package list, case-insensitive
    lookup, and the mapping of a raw entry to the canonical shape, enriched
    from the project's bower.json when that can be found. */
module Bower {
  import opened Values

  /** The Ruby hash `packages`: keys in insertion order, and the entry of each key.
      Re-assigning a key keeps its position and replaces its entry. */
  datatype Index = Index(keys: seq<string>, entries: map<string, Record>)

  /** The two fields an index entry keeps (`hash.slice('name', 'url')`). */
  const Kept: set<string> := {"name", "url"}

  /** The key list and the entry map describe the same keys, once each. */
  predicate WellFormed(idx: Index)
  {
    && Distinct(idx.keys)
    && (forall k :: k in idx.keys ==> k in idx.entries)
    && (forall k :: k in idx.entries ==> k in idx.keys)
  }

  /** `hash.slice('name', 'url')`. */
  function Slice(h: Record): (r: Record)
    ensures r.Keys == h.Keys * Kept
    ensures forall k :: k in r ==> r[k] == h[k]
  {
    map k | k in h.Keys * Kept :: h[k]
  }

  /** `packages[k] = v`. */
  function Put(idx: Index, k: string, v: Record): (r: Index)
    ensures WellFormed(idx) ==> WellFormed(r)
    ensures r.entries == idx.entries[k := v]
    ensures k in idx.entries ==> r.keys == idx.keys
  {
    var keys := if k in idx.entries then idx.keys else idx.keys + [k];
    assert WellFormed(idx) && k !in idx.entries ==> Distinct(keys) by {
      if WellFormed(idx) && k !in idx.entries {
        assert forall i :: 0 <= i < |idx.keys| ==> keys[i] == idx.keys[i] && idx.keys[i] in idx.entries;
      }
    }
    Index(keys, idx.entries[k := v])
  }

  /** An entry whose name is a string, so that `downcase` does not raise. */
  predicate Named(h: Record)
  {
    Get(h, "name").Str?
  }

  /** The index key of an entry: its name, downcased. */
  function Key(h: Record): string
    requires Named(h)
  {
    Lower(Get(h, "name").s)
  }

  /** The body of `packages` (lines 16-27) over the decoded response: each entry
      in turn is stored under its downcased name. An entry without a string
      name makes `downcase` raise, and no index is built. */
  function BuildIndex(data: seq<Record>): Attempt<Index>
    decreases |data|
  {
    if data == [] then Done(Index([], map[]))
    else
      var n := |data| - 1;
      match BuildIndex(data[..n])
      case Raised => Raised
      case Done(idx) =>
        if Named(data[n]) then Done(Put(idx, Key(data[n]), Slice(data[n]))) else Raised
  }

  lemma {:induction false} BuildIndexRaisesFrom(data: seq<Record>, i: nat)
    requires i <= |data| && BuildIndex(data[..i]).Raised?
    ensures BuildIndex(data).Raised?
    decreases |data| - i
  {
    if i < |data| {
      assert data[..i + 1][..i] == data[..i];
      BuildIndexRaisesFrom(data, i + 1);
    } else {
      assert data[..i] == data;
    }
  }

  /** The index build raises exactly when some entry has no string name. */
  lemma BuildIndexRaises(data: seq<Record>)
    ensures BuildIndex(data).Raised? <==> exists i :: 0 <= i < |data| && !Named(data[i])
  {
    if BuildIndex(data).Raised? {
      RaisedHasUnnamed(data);
    }
    if exists i :: 0 <= i < |data| && !Named(data[i]) {
      var i :| 0 <= i < |data| && !Named(data[i]);
      UnnamedRaises(data, i);
    }
  }

  lemma {:induction false} RaisedHasUnnamed(data: seq<Record>)
    requires BuildIndex(data).Raised?
    ensures exists i :: 0 <= i < |data| && !Named(data[i])
    decreases |data|
  {
    var n := |data| - 1;
    if BuildIndex(data[..n]).Raised? {
      RaisedHasUnnamed(data[..n]);
      var i :| 0 <= i < n && !Named(data[..n][i]);
      assert data[..n][i] == data[i];
    } else {
      assert !Named(data[n]);
    }
  }

  lemma {:induction false} UnnamedRaises(data: seq<Record>, i: nat)
    requires i < |data| && !Named(data[i])
    ensures BuildIndex(data).Raised?
    decreases |data|
  {
    var n := |data| - 1;
    if i < n {
      assert data[..n][i] == data[i];
      UnnamedRaises(data[..n], i);
    } else {
      LastUnnamedRaises(data);
    }
  }

  lemma LastUnnamedRaises(d: seq<Record>)
    requires d != [] && !Named(d[|d| - 1])
    ensures BuildIndex(d).Raised?
  {
  }

  /** A built index is well formed, its keys are lower case, its entries hold
      only name and url, and its keys are exactly the downcased names. */
  lemma BuildIndexShape(data: seq<Record>)
    requires BuildIndex(data).Done?
    ensures var idx := BuildIndex(data).value;
      && WellFormed(idx)
      && (forall k :: k in idx.keys ==> IsLower(k))
      && (forall k :: k in idx.entries ==> idx.entries[k].Keys <= Kept)
      && (forall k :: k in idx.entries <==> exists i :: 0 <= i < |data| && Named(data[i]) && Key(data[i]) == k)
  {
    BuildIndexWellFormed(data);
    BuildIndexKeySet(data);
  }

  lemma {:induction false} BuildIndexWellFormed(data: seq<Record>)
    requires BuildIndex(data).Done?
    ensures var idx := BuildIndex(data).value;
      && WellFormed(idx)
      && (forall k :: k in idx.keys ==> IsLower(k))
      && (forall k :: k in idx.entries ==> idx.entries[k].Keys <= Kept)
    decreases |data|
  {
    if data != [] {
      var n := |data| - 1;
      var prev := BuildIndex(data[..n]);
      assert prev.Done? && Named(data[n]);
      BuildIndexWellFormed(data[..n]);
      LowerIdempotent(Get(data[n], "name").s);
    }
  }

  lemma {:induction false} BuildIndexKeySet(data: seq<Record>)
    requires BuildIndex(data).Done?
    ensures var idx := BuildIndex(data).value;
      forall k :: k in idx.entries <==> exists i :: 0 <= i < |data| && Named(data[i]) && Key(data[i]) == k
    decreases |data|
  {
    if data != [] {
      var n := |data| - 1;
      var prev := BuildIndex(data[..n]);
      assert prev.Done? && Named(data[n]);
      BuildIndexKeySet(data[..n]);
      BuildIndexEntries(data, data[..n], prev.value, BuildIndex(data).value);
    }
  }

  /** One step of the key-set induction: the last record's key joins the keys before it. */
  lemma BuildIndexEntries(data: seq<Record>, init: seq<Record>, prev: Index, idx: Index)
    requires data != [] && Named(data[|data| - 1]) && init == data[..|data| - 1]
    requires forall k :: k in prev.entries <==> exists i :: 0 <= i < |init| && Named(init[i]) && Key(init[i]) == k
    requires idx.entries == prev.entries[Key(data[|data| - 1]) := Slice(data[|data| - 1])]
    ensures forall k :: k in idx.entries <==> exists i :: 0 <= i < |data| && Named(data[i]) && Key(data[i]) == k
  {
    var n := |data| - 1;
    assert forall i :: 0 <= i < n ==> data[..n][i] == data[i];
    forall k | k in idx.entries ensures exists i :: 0 <= i < |data| && Named(data[i]) && Key(data[i]) == k {
      if k != Key(data[n]) {
        var i :| 0 <= i < n && Named(data[..n][i]) && Key(data[..n][i]) == k;
        assert data[i] == data[..n][i];
      }
    }
    forall k | exists i :: 0 <= i < |data| && Named(data[i]) && Key(data[i]) == k ensures k in idx.entries {
      var i :| 0 <= i < |data| && Named(data[i]) && Key(data[i]) == k;
      if i < n {
        assert data[..n][i] == data[i];
      }
    }
  }

  /** A build that succeeds put the last entry into the index built before it. */
  lemma BuiltFromLast(data: seq<Record>)
    requires data != [] && BuildIndex(data).Done?
    ensures var n := |data| - 1;
      && BuildIndex(data[..n]).Done? && Named(data[n])
      && BuildIndex(data).value == Put(BuildIndex(data[..n]).value, Key(data[n]), Slice(data[n]))
  {
  }

  /** When names collide after downcasing, the last entry is the one kept. */
  lemma {:induction false} LaterEntryWins(data: seq<Record>, i: nat)
    requires BuildIndex(data).Done?
    requires i < |data| && Named(data[i])
    requires forall j :: i < j < |data| && Named(data[j]) ==> Key(data[j]) != Key(data[i])
    ensures var idx := BuildIndex(data).value;
      Key(data[i]) in idx.entries && idx.entries[Key(data[i])] == Slice(data[i])
    decreases |data|
  {
    var n := |data| - 1;
    BuiltFromLast(data);
    var prev := BuildIndex(data[..n]).value;
    var key := Key(data[i]);
    if i < n {
      var init := data[..n];
      UniqueInPrefix(data, init, i);
      LaterEntryWins(init, i);
      assert Key(data[n]) != key;
      PutKeeps(prev, Key(data[n]), Slice(data[n]), key);
    } else {
      PutSets(prev, key, Slice(data[i]));
    }
  }

  lemma PutKeeps(idx: Index, k: string, v: Record, k': string)
    requires k' != k && k' in idx.entries
    ensures k' in Put(idx, k, v).entries && Put(idx, k, v).entries[k'] == idx.entries[k']
  {
  }

  lemma PutSets(idx: Index, k: string, v: Record)
    ensures k in Put(idx, k, v).entries && Put(idx, k, v).entries[k] == v
  {
  }

  /** A name no later entry repeats is not repeated later within a prefix either. */
  lemma UniqueInPrefix(data: seq<Record>, init: seq<Record>, i: nat)
    requires data != [] && init == data[..|data| - 1] && i < |init| && Named(data[i])
    requires forall j :: i < j < |data| && Named(data[j]) ==> Key(data[j]) != Key(data[i])
    ensures init[i] == data[i]
    ensures forall j :: i < j < |init| && Named(init[j]) ==> Key(init[j]) != Key(init[i])
  {
    forall j | i < j < |init| && Named(init[j]) ensures Key(init[j]) != Key(init[i]) {
      assert init[j] == data[j] && init[i] == data[i];
    }
  }

  /** `fetch_package_metadata` on an index (line 34): the entry under the downcased name. */
  function Find(idx: Index, name: string): Option<Record>
  {
    if Lower(name) in idx.entries then Some(idx.entries[Lower(name)]) else None
  }

  /** Lookup ignores case: names that downcase alike find the same entry,
      and every name finds what its downcased form finds. */
  lemma FindIgnoresCase(idx: Index, a: string, b: string)
    requires Lower(a) == Lower(b)
    ensures Find(idx, a) == Find(idx, b)
    ensures Find(idx, a) == Find(idx, Lower(a))
  {
    LowerIdempotent(a);
  }

  /** On a built index, a name is found exactly when some entry's name
      downcases to the same string, and then it finds that entry's slice
      (the last such entry's). */
  lemma FindInBuiltIndex(data: seq<Record>, name: string)
    requires BuildIndex(data).Done?
    ensures var r := Find(BuildIndex(data).value, name);
      && (r.Some? <==> exists i :: 0 <= i < |data| && Named(data[i]) && Key(data[i]) == Lower(name))
      && (forall i :: (0 <= i < |data| && Named(data[i]) && Key(data[i]) == Lower(name) &&
                       (forall j :: i < j < |data| && Named(data[j]) ==> Key(data[j]) != Key(data[i]))) ==>
            r == Some(Slice(data[i])))
  {
    BuildIndexShape(data);
    forall i | 0 <= i < |data| && Named(data[i]) && Key(data[i]) == Lower(name) &&
               (forall j :: i < j < |data| && Named(data[j]) ==> Key(data[j]) != Key(data[i]))
      ensures Find(BuildIndex(data).value, name) == Some(Slice(data[i]))
    {
      LaterEntryWins(data, i);
    }
  }

  /** `recently_updated_package_names` (lines 12-14): Bower has no such feed. */
  function RecentlyUpdatedPackageNames(): (r: seq<string>)
    ensures r == []
  {
    []
  }

  /** `versions_metadata` (lines 29-31): Bower reports no versions. */
  function VersionsMetadata(name: string): (r: seq<Record>)
    ensures r == []
  {
    []
  }

  /** Where `load_bower_json` looks for the descriptor (line 53). */
  function BowerJsonUrl(nameWithOwner: string): string
  {
    "https://raw.githubusercontent.com/" + nameWithOwner + "/master/bower.json"
  }

  /** `load_bower_json` (lines 49-54). `parse` is GithubUrlParser.parse and
      `getJson` the HTTP fetch; None stands for a nil result. */
  function LoadBowerJson(raw: Record, parse: Value -> Option<string>, getJson: string -> Attempt<Option<Record>>): (r: Option<Record>)
    ensures !Truthy(Get(raw, "url")) ==> r == Some(raw)
    ensures Truthy(Get(raw, "url")) && parse(Get(raw, "url")).None? ==> r == Some(raw)
    ensures Truthy(Get(raw, "url")) && parse(Get(raw, "url")).Some? ==>
      r == match getJson(BowerJsonUrl(parse(Get(raw, "url")).value))
           case Raised => Some(map[])
           case Done(j) => j
  {
    if !Truthy(Get(raw, "url")) then Some(raw)
    else match parse(Get(raw, "url"))
      case None => Some(raw)
      case Some(nameWithOwner) =>
        match getJson(BowerJsonUrl(nameWithOwner))
        case Raised => Some(map[])
        case Done(j) => j
  }

  /** `map_package_metadata` (lines 37-47). */
  function MapPackageMetadata(raw: Record, parse: Value -> Option<string>, getJson: string -> Attempt<Option<Record>>): (r: Record)
    ensures r.Keys == {"name", "repository_url", "licenses", "keywords_array", "homepage", "description"}
    ensures r["name"] == Get(raw, "name") && r["repository_url"] == Get(raw, "url")
  {
    var loaded := LoadBowerJson(raw, parse, getJson);
    var bowerJson := if loaded.Some? then loaded.value else raw;
    map["name" := Get(raw, "name"),
        "repository_url" := Get(raw, "url"),
        "licenses" := Get(bowerJson, "license"),
        "keywords_array" := Get(bowerJson, "keywords"),
        "homepage" := Get(bowerJson, "homepage"),
        "description" := Get(bowerJson, "description")]
  }

  /** The descriptive fields of a mapped record, read from `source`. */
  predicate DescribedBy(r: Record, source: Record)
    requires r.Keys == {"name", "repository_url", "licenses", "keywords_array", "homepage", "description"}
  {
    && r["licenses"] == Get(source, "license")
    && r["keywords_array"] == Get(source, "keywords")
    && r["homepage"] == Get(source, "homepage")
    && r["description"] == Get(source, "description")
  }

  /** Where the descriptive fields come from: the raw entry when it has no url,
      when the url is not a GitHub url, or when the descriptor fetch yields nil;
      nothing (all nil) when the fetch raises; else the fetched descriptor. */
  lemma MapPackageMetadataSources(raw: Record, parse: Value -> Option<string>, getJson: string -> Attempt<Option<Record>>)
    ensures var r := MapPackageMetadata(raw, parse, getJson);
      var url := Get(raw, "url");
      && (!Truthy(url) ==> DescribedBy(r, raw))
      && (Truthy(url) && parse(url).None? ==> DescribedBy(r, raw))
      && (Truthy(url) && parse(url).Some? ==>
            match getJson(BowerJsonUrl(parse(url).value))
            case Raised => DescribedBy(r, map[])
            case Done(None) => DescribedBy(r, raw)
            case Done(Some(j)) => DescribedBy(r, j))
  {
  }

  /** `install_command` (lines 4-6); a version is appended after `#` whenever
      one is given, even an empty one. */
  function InstallCommand(name: string, version: Option<string>): (r: string)
    ensures "bower install " + name <= r
    ensures version.None? ==> |r| == 14 + |name|
    ensures version.Some? ==> r[14 + |name|..] == "#" + version.value
  {
    "bower install " + name + (if version.Some? then "#" + version.value else "")
  }

  /** The index `packages` builds from what `get(url)` (line 19) returned:
      a download that raised raises here too. */
  function IndexFrom(download: Attempt<seq<Record>>): Attempt<Index>
  {
    if download.Raised? then Raised else BuildIndex(download.value)
  }

  /** The adapter object, holding `@packages`. */
  class BowerAdapter {
    /** `@packages`: the index once built. */
    var memo: Option<Index>

    constructor()
      ensures memo == None
    {
      memo := None;
    }

    /** `packages` (lines 16-27) given what `get(url)` returned: the
        memoised index, or else the one built from the downloaded registry
        list, which is then memoised. The download is only used when nothing
        is memoised; a download or a build that raises leaves nothing
        memoised. */
    method Packages(download: Attempt<seq<Record>>) returns (r: Attempt<Index>)
      modifies this
      ensures old(memo).Some? ==> r == Done(old(memo).value) && memo == old(memo)
      ensures old(memo).None? && download.Raised? ==> r.Raised?
      ensures old(memo).None? && download.Done? ==> r == BuildIndex(download.value)
      ensures old(memo).None? ==> memo == if r.Done? then Some(r.value) else None
    {
      if memo.Some? {
        return Done(memo.value);
      }
      if download.Raised? {
        return Raised;
      }
      r := Build(download.value);
      if r.Done? {
        memo := Some(r.value);
      }
    }

    /** The loop of lines 20-25: each entry's downcased name is stored, a later
        duplicate overwriting; an entry without a string name raises. */
    static method Build(data: seq<Record>) returns (r: Attempt<Index>)
      ensures r == BuildIndex(data)
    {
      var idx := Index([], map[]);
      for i := 0 to |data|
        invariant BuildIndex(data[..i]) == Done(idx)
      {
        assert data[..i + 1][..i] == data[..i];
        var n := Get(data[i], "name");
        if !n.Str? {
          assert BuildIndex(data[..i + 1]).Raised?;
          BuildIndexRaisesFrom(data, i + 1);
          return Raised;
        }
        idx := Put(idx, Lower(n.s), Slice(data[i]));
      }
      assert data[..|data|] == data;
      r := Done(idx);
    }

    /** `all_package_names` (lines 8-10): the index keys. */
    method AllPackageNames(download: Attempt<seq<Record>>) returns (r: Attempt<seq<string>>)
      modifies this
      ensures var built := if old(memo).Some? then Done(old(memo).value) else IndexFrom(download);
        r == if built.Done? then Done(built.value.keys) else Raised
      ensures old(memo).Some? ==> memo == old(memo)
      ensures old(memo).None? ==> memo == if IndexFrom(download).Done? then Some(IndexFrom(download).value) else None
    {
      var idx := Packages(download);
      if idx.Raised? {
        return Raised;
      }
      r := Done(idx.value.keys);
    }

    /** `fetch_package_metadata` (lines 33-35). */
    method FetchPackageMetadata(download: Attempt<seq<Record>>, name: string) returns (r: Attempt<Option<Record>>)
      modifies this
      ensures var built := if old(memo).Some? then Done(old(memo).value) else IndexFrom(download);
        r == if built.Done? then Done(Find(built.value, name)) else Raised
      ensures old(memo).Some? ==> memo == old(memo)
      ensures old(memo).None? ==> memo == if IndexFrom(download).Done? then Some(IndexFrom(download).value) else None
    {
      var idx := Packages(download);
      if idx.Raised? {
        return Raised;
      }
      r := Done(Find(idx.value, name));
    }
  }

  /** The names a fresh adapter lists are distinct, lower case, and exactly
      the downcased names of the registry list. */
  lemma AllPackageNamesShape(data: seq<Record>)
    requires BuildIndex(data).Done?
    ensures var names := BuildIndex(data).value.keys;
      && Distinct(names)
      && (forall k :: k in names ==> IsLower(k))
      && (forall k :: k in names <==> exists i :: 0 <= i < |data| && Named(data[i]) && Key(data[i]) == k)
  {
    BuildIndexShape(data);
  }
}
