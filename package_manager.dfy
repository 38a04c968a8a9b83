/** The add-on install pipeline of the package manager: reference routing, the
    on-disk archive cache, the registry search, the fetch by id, the download and
    the extraction, and uninstall by cache removal.

    The network and the archive extractor are not modelled; what they answer is
    passed in as `Responses`, and every call made to them is recorded, in order,
    in the installer's `calls`.  The cache directory is a map from a directory
    path relative to `CacheFolder` to the names of the archive files in it. */
module PackageManager {
  import opened LexOrder
  import opened Reference

  /** One add-on version as the registry describes it (the `Addon` record). */
  datatype Addon = Addon(
    assetId: string,
    author: string,
    title: string,
    version: string,
    downloadCommit: string,
    downloadUrl: string,
    error: string)

  /** Go's zero value `Addon{}`. */
  const EmptyAddon := Addon("", "", "", "", "", "", "")

  /** The body of a search answer (the `AssetResult` record). */
  datatype AssetResult = AssetResult(result: seq<Addon>)

  const CacheFolder := "gibson/addons"
  const UnzipTarget := "addons"
  const GodotVersion := "3.4"

  /** Directory path relative to `CacheFolder` |-> names of the files in it. */
  type Cache = map<string, set<string>>

  /** `filepath.Join` of two elements, without path cleaning. */
  function JoinPath(dir: string, name: string): string
  {
    dir + "/" + name
  }

  /** The cache directory of an add-on, relative to `CacheFolder`. */
  function CacheKey(author: string, title: string): string
  {
    author + "/" + title
  }

  /** The file name a downloaded version is stored under: the version, an
      underscore, the commit and the `.zip` extension, each at a known place. */
  function ArchiveName(version: string, commit: string): (name: string)
    ensures |name| == |version| + 1 + |commit| + 4
    ensures name[..|version|] == version && name[|version|] == '_'
    ensures name[|version| + 1..|name| - 4] == commit && name[|name| - 4..] == ".zip"
  {
    version + "_" + commit + ".zip"
  }

  /** Where the archive of a fetched add-on is written: inside the cache folder,
      it is the file `ArchiveName` in the add-on's directory `CacheKey`, the very
      entry the cache records for it. */
  function ArchivePath(a: Addon): (path: string)
    ensures path == JoinPath(CacheFolder, JoinPath(CacheKey(a.author, a.title), ArchiveName(a.version, a.downloadCommit)))
  {
    var dir := JoinPath(CacheFolder, CacheKey(a.author, a.title));
    var name := ArchiveName(a.version, a.downloadCommit);
    assert JoinPath(dir, name)[|dir| + 1..] == name;
    JoinPath(dir, name)
  }

  // ---------------------------------------------------------------------------
  // The cache directory

  /** `key` lies inside the tree that `os.RemoveAll(filepath.Join(CacheFolder, dir))`
      deletes; `filepath.Join` drops an empty element, so "" names the whole cache. */
  predicate Under(key: string, dir: string)
  {
    dir == "" || key == dir || (|key| > |dir| && key[..|dir|] == dir && key[|dir|] == '/')
  }

  /** `os.RemoveAll`: whatever `dir` names is gone, a directory with everything
      below it or a single file, the rest of the cache is untouched, and a missing
      path is no error. */
  function RemoveAll(cache: Cache, dir: string): (c: Cache)
    ensures forall k :: k in c <==> k in cache && !Under(k, dir)
    ensures forall k, n :: k in c ==> (n in c[k] <==> n in cache[k] && !Under(JoinPath(k, n), dir))
  {
    map k | k in cache && !Under(k, dir) :: set n | n in cache[k] && !Under(JoinPath(k, n), dir)
  }

  /** `os.MkdirAll`: the directory exists afterwards, with whatever it held. */
  function MkdirAll(cache: Cache, key: string): (c: Cache)
    ensures c.Keys == cache.Keys + {key}
    ensures key in cache ==> c == cache
    ensures key !in cache ==> c[key] == {}
    ensures forall k :: k in cache ==> c[k] == cache[k]
  {
    if key in cache then cache else cache[key := {}]
  }

  /** A file named `name` is (over)written in the existing directory `key`. */
  function WriteFile(cache: Cache, key: string, name: string): (c: Cache)
    requires key in cache
    ensures c.Keys == cache.Keys
    ensures c[key] == cache[key] + {name}
    ensures forall k :: k in cache && k != key ==> c[k] == cache[k]
  {
    cache[key := cache[key] + {name}]
  }

  /** What `lookForCachedAsset` needs of the cache in order not to panic: an
      existing directory it lists must hold at least one entry, since it reads
      `fs[0]` unconditionally. */
  predicate LookupSafe(cache: Cache, asset: string)
  {
    '/' in asset && asset in cache ==> cache[asset] != {}
  }

  /** `lookForCachedAsset`: "" when the reference has no slash or its directory
      does not exist, otherwise the path of the greatest file name in it. */
  ghost function CachedAsset(cache: Cache, asset: string): (path: string)
    requires LookupSafe(cache, asset)
    ensures path == "" <==> !('/' in asset && asset in cache)
    ensures path != "" ==>
      exists name :: IsGreatest(cache[asset], name) && path == JoinPath(JoinPath(CacheFolder, asset), name)
  {
    if '/' in asset && asset in cache then
      var name := Greatest(cache[asset]);
      assert IsGreatest(cache[asset], name);
      JoinPath(JoinPath(CacheFolder, asset), name)
    else
      ""
  }

  // ---------------------------------------------------------------------------
  // The registry answer

  /** Index of the first add-on titled exactly `title`, or |results| if none is. */
  function FirstMatch(results: seq<Addon>, title: string): (i: nat)
    ensures i <= |results|
    ensures forall k :: 0 <= k < i ==> results[k].title != title
    ensures i < |results| ==> results[i].title == title
  {
    if |results| == 0 then 0
    else if results[0].title == title then 0
    else 1 + FirstMatch(results[1..], title)
  }

  /** The add-on `installByAuthor` goes on with: the first exact title match,
      or the zero `Addon` when there is none. */
  function Selected(results: seq<Addon>, title: string): Addon
  {
    var i := FirstMatch(results, title);
    if i < |results| then results[i] else EmptyAddon
  }

  // ---------------------------------------------------------------------------
  // The outside world, and what the pipeline does to it

  /** A call to the registry, the downloader or the extractor. */
  datatype Call =
    | Search(user: string, godotVersion: string)
    | FetchById(id: string)
    | Download(url: string, path: string)
    | Unzip(archive: string, target: string)

  /** The phase that reports the outcome (the four progress spinners). */
  datatype Phase = Finding | Retrieving | Downloading | Installing

  datatype Report = Installed | Failed(phase: Phase)

  /** Whether the search request failed in transport or decoding, or what it found. */
  datatype SearchReply = SearchError | SearchOk(found: AssetResult)

  /** The HTTP status of the fetch by id and the add-on decoded from its body. */
  datatype FetchReply = FetchReply(status: int, addon: Addon)

  /** The download either writes the archive or fails, possibly leaving a partial file. */
  datatype DownloadOutcome = Written | DownloadError(partialFile: bool)

  /** What the registry, the downloader and the extractor answer during one install. */
  datatype Responses = Responses(
    search: SearchReply,
    fetch: FetchReply,
    download: DownloadOutcome,
    unzipOk: bool)

  /** The report, the calls made in order, and the cache afterwards. */
  datatype Effect = Effect(report: Report, calls: seq<Call>, cache: Cache)

  /** `installAsset`: extract one archive into `UnzipTarget`. */
  function InstallAssetEffect(cache: Cache, archive: string, unzipOk: bool): Effect
  {
    Effect(if unzipOk then Installed else Failed(Installing), [Unzip(archive, UnzipTarget)], cache)
  }

  /** `installById`: fetch the add-on, give up on a status above 400, create its
      directory, download its archive there, and extract that archive. */
  function ByIdEffect(cache: Cache, assetId: string, r: Responses): Effect
  {
    var fetched := [FetchById(assetId)];
    if r.fetch.status > 400 then
      Effect(Failed(Retrieving), fetched, cache)
    else
      var a := r.fetch.addon;
      var key := CacheKey(a.author, a.title);
      var withDir := MkdirAll(cache, key);
      var name := ArchiveName(a.version, a.downloadCommit);
      var downloaded := fetched + [Download(a.downloadUrl, ArchivePath(a))];
      match r.download
      case DownloadError(partial) =>
        Effect(Failed(Downloading), downloaded, if partial then WriteFile(withDir, key, name) else withDir)
      case Written =>
        var installed := InstallAssetEffect(WriteFile(withDir, key, name), ArchivePath(a), r.unzipOk);
        Effect(installed.report, downloaded + installed.calls, installed.cache)
  }

  /** `installByAuthor`: clear the cache or try it, else search the author's
      add-ons for the title and continue by id. */
  ghost function ByAuthorEffect(cache: Cache, asset: string, clearCached: bool, r: Responses): Effect
    requires '/' in asset
    requires clearCached || LookupSafe(cache, asset)
  {
    var parts := Split(asset);
    var author, title := parts[0], parts[1];
    if !clearCached && CachedAsset(cache, asset) != "" then
      InstallAssetEffect(cache, CachedAsset(cache, asset), r.unzipOk)
    else
      var c := if clearCached then RemoveAll(cache, asset) else cache;
      var searched := [Search(author, GodotVersion)];
      match r.search
      case SearchError =>
        Effect(Failed(Finding), searched, c)
      case SearchOk(found) =>
        var addon := Selected(found.result, title);
        if addon.assetId == "" then
          Effect(Failed(Finding), searched, c)
        else
          var rest := ByIdEffect(c, addon.assetId, r);
          Effect(rest.report, searched + rest.calls, rest.cache)
  }

  /** `InstallAddon`: a reference with a slash goes by author, any other by id. */
  ghost function InstallEffect(cache: Cache, asset: string, clearCached: bool, r: Responses): Effect
    requires clearCached || LookupSafe(cache, asset)
  {
    if '/' in asset then ByAuthorEffect(cache, asset, clearCached, r)
    else ByIdEffect(cache, asset, r)
  }

  // ---------------------------------------------------------------------------
  // The imperative code

  /** `ioutil.ReadDir` on a cache directory: its entries, in an order the caller
      does not rely on. */
  method ReadDir(names: set<string>) returns (fs: array<string>)
    ensures fresh(fs)
    ensures multiset(fs[..]) == multiset(names)
  {
    var listing: seq<string> := [];
    var rest := names;
    while rest != {}
      invariant multiset(listing) + multiset(rest) == multiset(names)
      decreases rest
    {
      var n :| n in rest;
      assert multiset(rest) == multiset(rest - {n}) + multiset{n};
      listing := listing + [n];
      rest := rest - {n};
    }
    fs := new string[|listing|](i requires 0 <= i < |listing| => listing[i]);
    assert fs[..] == listing;
  }

  /** `sort.SliceStable(fs, func(i, j int) bool { return fs[i].Name() > fs[j].Name() })`,
      by insertion: the names end in descending order, none lost or added. */
  method SortByNameDescending(fs: array<string>)
    modifies fs
    ensures SortedDescending(fs[..])
    ensures multiset(fs[..]) == multiset(old(fs[..]))
  {
    var i := 0;
    while i < fs.Length
      invariant 0 <= i <= fs.Length
      invariant forall p, q :: 0 <= p < q < i ==> LessOrEqual(fs[q], fs[p])
      invariant multiset(fs[..]) == multiset(old(fs[..]))
    {
      InsertDescending(fs, i);
      i := i + 1;
    }
  }

  /** One step of the insertion sort: `fs[i]` moves left past every name that
      sorts before it, so that `fs[..i + 1]` is in descending order. */
  method InsertDescending(fs: array<string>, i: nat)
    requires i < fs.Length
    requires forall p, q :: 0 <= p < q < i ==> LessOrEqual(fs[q], fs[p])
    modifies fs
    ensures forall p, q :: 0 <= p < q <= i ==> LessOrEqual(fs[q], fs[p])
    ensures multiset(fs[..]) == multiset(old(fs[..]))
  {
    var j := i;
    while j > 0 && Less(fs[j - 1], fs[j])
      invariant 0 <= j <= i
      invariant forall p, q :: 0 <= p < q <= i && p != j && q != j ==> LessOrEqual(fs[q], fs[p])
      invariant forall q :: j < q <= i ==> LessOrEqual(fs[q], fs[j])
      invariant multiset(fs[..]) == multiset(old(fs[..]))
    {
      fs[j - 1], fs[j] := fs[j], fs[j - 1];
      j := j - 1;
    }
    if j > 0 {
      LessTotal(fs[j], fs[j - 1]);
      forall p | 0 <= p < j - 1
        ensures LessOrEqual(fs[j], fs[p])
      {
        LessOrEqualTransitive(fs[j], fs[j - 1], fs[p]);
      }
    }
  }

  /** The loop of `installByAuthor` over the search result: the first add-on whose
      title equals `title` exactly, or the zero `Addon` when none does. */
  method FindAddon(results: seq<Addon>, title: string) returns (toDownload: Addon)
    ensures toDownload == Selected(results, title)
  {
    toDownload := EmptyAddon;
    var k := 0;
    while k < |results|
      invariant 0 <= k <= |results|
      invariant forall j :: 0 <= j < k ==> results[j].title != title
      invariant toDownload == EmptyAddon
    {
      if results[k].title == title {
        toDownload := results[k];
        break;
      }
      k := k + 1;
    }
  }

  /** Appending in two steps is appending the concatenation. */
  lemma AppendAssoc<T>(a: seq<T>, b: seq<T>, c: seq<T>)
    ensures (a + b) + c == a + (b + c)
  {
  }

  /** The installer's state: the cache directory, and the calls made so far. */
  class Installer {
    var cache: Cache
    var calls: seq<Call>

    constructor (initial: Cache)
      ensures cache == initial && calls == []
    {
      cache := initial;
      calls := [];
    }

    /** `lookForCachedAsset`: list the directory named by the reference, sort the
        names in descending order and take the first. */
    method LookForCachedAsset(asset: string) returns (path: string)
      requires LookupSafe(cache, asset)
      ensures path == CachedAsset(cache, asset)
    {
      path := "";
      if '/' in asset {
        var assetPath := JoinPath(CacheFolder, asset);
        if asset in cache {
          var fs := ReadDir(cache[asset]);
          SortByNameDescending(fs);
          SortedHeadIsGreatest(fs[..], cache[asset]);
          path := JoinPath(assetPath, fs[0]);
        }
      }
    }

    /** `clearCache`: remove what the reference names, a directory tree or one archive. */
    method ClearCache(asset: string)
      modifies this
      ensures cache == RemoveAll(old(cache), asset)
      ensures calls == old(calls)
    {
      cache := RemoveAll(cache, asset);
    }

    /** `installAsset`: extract the archive into `UnzipTarget`. */
    method InstallAsset(archive: string, unzipOk: bool) returns (report: Report)
      modifies this
      ensures var e := InstallAssetEffect(old(cache), archive, unzipOk);
        report == e.report && cache == e.cache && calls == old(calls) + e.calls
    {
      calls := calls + [Unzip(archive, UnzipTarget)];
      if !unzipOk {
        report := Failed(Installing);
        return;
      }
      report := Installed;
    }

    /** `installById`. The transport error of the fetch is not looked at; only a
        status above 400 stops the pipeline. */
    method InstallById(assetId: string, r: Responses) returns (report: Report)
      modifies this
      ensures var e := ByIdEffect(old(cache), assetId, r);
        report == e.report && cache == e.cache && calls == old(calls) + e.calls
    {
      calls := calls + [FetchById(assetId)];
      var code, toDownload := r.fetch.status, r.fetch.addon;
      if code > 400 {
        report := Failed(Retrieving);
        return;
      }
      var asset := CacheKey(toDownload.author, toDownload.title);
      var assetFolder := JoinPath(CacheFolder, asset);
      cache := MkdirAll(cache, asset);
      var name := ArchiveName(toDownload.version, toDownload.downloadCommit);
      var archive := JoinPath(assetFolder, name);
      calls := calls + [Download(toDownload.downloadUrl, archive)];
      match r.download {
        case DownloadError(partial) =>
          if partial {
            cache := WriteFile(cache, asset, name);
          }
          report := Failed(Downloading);
          return;
        case Written =>
          cache := WriteFile(cache, asset, name);
      }
      report := InstallAsset(archive, r.unzipOk);
    }

    /** `installByAuthor`. */
    method InstallByAuthor(asset: string, clearCached: bool, r: Responses) returns (report: Report)
      requires '/' in asset
      requires clearCached || LookupSafe(cache, asset)
      modifies this
      ensures var e := ByAuthorEffect(old(cache), asset, clearCached, r);
        report == e.report && cache == e.cache && calls == old(calls) + e.calls
    {
      var tempPack := Split(asset);
      var author, assetName := tempPack[0], tempPack[1];
      if clearCached {
        ClearCache(asset);
      } else {
        var cached := LookForCachedAsset(asset);
        if cached != "" {
          assert ByAuthorEffect(old(cache), asset, clearCached, r) == InstallAssetEffect(cache, cached, r.unzipOk);
          report := InstallAsset(cached, r.unzipOk);
          return;
        }
      }
      calls := calls + [Search(author, GodotVersion)];
      match r.search {
        case SearchError =>
          report := Failed(Finding);
        case SearchOk(assetResult) =>
          var toDownload := FindAddon(assetResult.result, assetName);
          if toDownload.assetId == "" {
            report := Failed(Finding);
          } else {
            ghost var cleared := cache;
            report := InstallById(toDownload.assetId, r);
            AppendAssoc(old(calls), [Search(author, GodotVersion)], ByIdEffect(cleared, toDownload.assetId, r).calls);
          }
      }
    }

    /** `InstallAddon`. */
    method InstallAddon(asset: string, clearCached: bool, r: Responses) returns (report: Report)
      requires clearCached || LookupSafe(cache, asset)
      modifies this
      ensures var e := InstallEffect(old(cache), asset, clearCached, r);
        report == e.report && cache == e.cache && calls == old(calls) + e.calls
    {
      if '/' in asset {
        report := InstallByAuthor(asset, clearCached, r);
      } else {
        report := InstallById(asset, r);
      }
    }

    /** `UninstallAsset`: remove what the reference names in the cache; no network call. */
    method UninstallAsset(asset: string)
      modifies this
      ensures cache == RemoveAll(old(cache), asset)
      ensures calls == old(calls)
    {
      ClearCache(asset);
    }
  }
}
