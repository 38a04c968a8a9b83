/** What the install pipeline promises, stated over its effect functions. */
module InstallProperties {
  import opened LexOrder
  import opened Reference
  import opened PackageManager

  /** The install does not find a cached archive to extract. */
  predicate NoCacheHit(cache: Cache, asset: string, clearCached: bool)
  {
    '/' !in asset || clearCached || asset !in cache
  }

  /** A reference without a slash is fetched by id and never searched for; one
      with a slash begins with a search of its author's add-ons or with the
      extraction of a cached archive, never with a fetch by id. */
  lemma RoutingByKind(cache: Cache, asset: string, clearCached: bool, r: Responses)
    requires clearCached || LookupSafe(cache, asset)
    ensures var e := InstallEffect(cache, asset, clearCached, r);
      && |e.calls| >= 1
      && ('/' !in asset ==> e.calls[0] == FetchById(asset) && forall c :: c in e.calls ==> !c.Search?)
      && ('/' in asset ==> e.calls[0].Search? || e.calls[0].Unzip?)
  {
    if '/' !in asset {
      ByIdNeverSearches(cache, asset, r);
    }
  }

  /** `installById` makes no search. */
  lemma ByIdNeverSearches(cache: Cache, assetId: string, r: Responses)
    ensures var e := ByIdEffect(cache, assetId, r);
      |e.calls| >= 1 && e.calls[0] == FetchById(assetId) && forall c :: c in e.calls ==> !c.Search?
  {
    var e := ByIdEffect(cache, assetId, r);
    if r.fetch.status <= 400 {
      var a := r.fetch.addon;
      if r.download.Written? {
        assert e.calls == [FetchById(assetId), Download(a.downloadUrl, ArchivePath(a)), Unzip(ArchivePath(a), UnzipTarget)];
      } else {
        assert e.calls == [FetchById(assetId), Download(a.downloadUrl, ArchivePath(a))];
      }
    }
  }

  /** With `clearCached` false, an existing directory for the reference sends the
      pipeline straight to extraction of its greatest archive: no search, no
      fetch, no download, and the cache is left as it was. */
  lemma CacheHitShortCircuits(cache: Cache, asset: string, r: Responses)
    requires '/' in asset && asset in cache && cache[asset] != {}
    ensures var e := InstallEffect(cache, asset, false, r);
      && e.calls == [Unzip(JoinPath(JoinPath(CacheFolder, asset), Greatest(cache[asset])), UnzipTarget)]
      && e.cache == cache
      && (e.report == Installed <==> r.unzipOk)
  {
  }

  /** Without a cache hit, a reference with a slash is looked up by searching its
      author (the text before the first slash). */
  lemma CacheMissSearchesAuthor(cache: Cache, asset: string, clearCached: bool, r: Responses)
    requires '/' in asset && (clearCached || asset !in cache)
    ensures var e := InstallEffect(cache, asset, clearCached, r);
      |e.calls| >= 1 && e.calls[0] == Search(Classify(asset).author, GodotVersion)
  {
  }

  /** With `clearCached` true, nothing cached below the reference survives except
      the archive this very install downloads, and every extraction is of an
      archive downloaded just before it: a failed fetch leaves no stale archive
      behind to fall back on. */
  lemma ClearedCacheNeverReused(cache: Cache, asset: string, r: Responses)
    requires '/' in asset
    ensures var e := InstallEffect(cache, asset, true, r);
      && (forall k :: k in e.cache && Under(k, asset) ==>
            e.cache[k] <= {ArchiveName(r.fetch.addon.version, r.fetch.addon.downloadCommit)})
      && (forall i :: 0 <= i < |e.calls| && e.calls[i].Unzip? ==>
            0 < i && e.calls[i - 1] == Download(r.fetch.addon.downloadUrl, e.calls[i].archive))
      && ((forall c :: c in e.calls ==> !c.Download?) ==> forall k :: Under(k, asset) ==> k !in e.cache)
  {
    var cleared := RemoveAll(cache, asset);
    var e := InstallEffect(cache, asset, true, r);
    var searched := [Search(Split(asset)[0], GodotVersion)];
    var title := Split(asset)[1];
    if r.search.SearchOk? && Selected(r.search.found.result, title).assetId != "" {
      var id := Selected(r.search.found.result, title).assetId;
      var rest := ByIdEffect(cleared, id, r);
      assert e.calls == searched + rest.calls;
      assert e.cache == rest.cache;
      ByIdKeepsOthers(cleared, id, r);
      var a := r.fetch.addon;
      var key := CacheKey(a.author, a.title);
      forall k | k in e.cache && Under(k, asset)
        ensures e.cache[k] <= {ArchiveName(a.version, a.downloadCommit)}
      {
        assert k !in cleared;
      }
      forall i | 0 <= i < |e.calls| && e.calls[i].Unzip?
        ensures 0 < i && e.calls[i - 1] == Download(a.downloadUrl, e.calls[i].archive)
      {
        assert e.calls[i] == rest.calls[i - 1];
      }
      if forall c :: c in e.calls ==> !c.Download? {
        forall c | c in rest.calls
          ensures !c.Download?
        {
          assert c in e.calls;
        }
        assert e.cache == cleared;
      }
    } else {
      assert e == Effect(Failed(Finding), searched, cleared);
    }
  }

  /** `installById` only ever adds the new archive to the directory of the fetched
      add-on: every other directory is kept, and that one gains at most the new name. */
  lemma ByIdKeepsOthers(cache: Cache, assetId: string, r: Responses)
    ensures var e := ByIdEffect(cache, assetId, r);
      var a := r.fetch.addon;
      var key := CacheKey(a.author, a.title);
      && e.cache.Keys <= cache.Keys + {key}
      && (forall k :: k in cache && k != key ==> k in e.cache && e.cache[k] == cache[k])
      && (key in e.cache ==> e.cache[key] <= (if key in cache then cache[key] else {}) + {ArchiveName(a.version, a.downloadCommit)})
      && (forall i :: 0 <= i < |e.calls| && e.calls[i].Unzip? ==>
            0 < i && e.calls[i - 1] == Download(a.downloadUrl, e.calls[i].archive))
      && ((forall c :: c in e.calls ==> !c.Download?) ==> e.cache == cache)
  {
    var e := ByIdEffect(cache, assetId, r);
    if r.fetch.status <= 400 {
      assert e.calls[1].Download?;
    }
  }

  /** When the search result holds no add-on with exactly the requested title
      (in particular when it is empty), or the match has no id, the install fails
      in the finding phase after the search alone: `installById` is never reached. */
  lemma NoExactMatchStopsAtSearch(cache: Cache, asset: string, clearCached: bool, r: Responses)
    requires '/' in asset && (clearCached || asset !in cache)
    requires r.search.SearchOk?
    requires Selected(r.search.found.result, Classify(asset).title).assetId == ""
    ensures var e := InstallEffect(cache, asset, clearCached, r);
      e.report == Failed(Finding) && e.calls == [Search(Classify(asset).author, GodotVersion)]
  {
  }

  /** An empty search result selects nothing. */
  lemma EmptyResultSelectsNothing(title: string)
    ensures Selected([], title).assetId == ""
  {
  }

  /** The add-on fetched after a search is the first one, in result order, whose
      title is exactly the requested one. */
  lemma FirstExactMatchIsFetched(cache: Cache, asset: string, clearCached: bool, r: Responses)
    requires '/' in asset && (clearCached || asset !in cache)
    requires r.search.SearchOk?
    requires var results := r.search.found.result;
      var i := FirstMatch(results, Classify(asset).title);
      i < |results| && results[i].assetId != ""
    ensures var e := InstallEffect(cache, asset, clearCached, r);
      var results := r.search.found.result;
      && |e.calls| >= 2
      && e.calls[1] == FetchById(results[FirstMatch(results, Classify(asset).title)].assetId)
      && (forall k :: 0 <= k < FirstMatch(results, Classify(asset).title) ==> results[k].title != Classify(asset).title)
  {
  }

  /** A fetch-by-id status above 400 stops the pipeline: nothing is downloaded,
      extracted or created in the cache.  A status of 400 or below goes on to
      download into `ArchivePath`. */
  lemma StatusAbove400Aborts(cache: Cache, assetId: string, r: Responses)
    ensures var e := ByIdEffect(cache, assetId, r);
      && (r.fetch.status > 400 <==> e.report == Failed(Retrieving))
      && (r.fetch.status > 400 ==> e.calls == [FetchById(assetId)] && e.cache == cache)
      && (r.fetch.status <= 400 ==>
            |e.calls| >= 2 && e.calls[1] == Download(r.fetch.addon.downloadUrl, ArchivePath(r.fetch.addon))
            && CacheKey(r.fetch.addon.author, r.fetch.addon.title) in e.cache)
  {
  }

  /** The same for a whole install that does not hit the cache. */
  lemma RejectedFetchNeverDownloads(cache: Cache, asset: string, clearCached: bool, r: Responses)
    requires clearCached || LookupSafe(cache, asset)
    requires NoCacheHit(cache, asset, clearCached)
    requires r.fetch.status > 400
    ensures var e := InstallEffect(cache, asset, clearCached, r);
      && e.report != Installed
      && (forall c :: c in e.calls ==> !c.Download? && !c.Unzip?)
  {
    var e := InstallEffect(cache, asset, clearCached, r);
    forall c | c in e.calls
      ensures !c.Download? && !c.Unzip?
    {
    }
  }

  /** A failed download stops the pipeline before extraction. */
  lemma DownloadFailureSkipsUnzip(cache: Cache, asset: string, clearCached: bool, r: Responses)
    requires clearCached || LookupSafe(cache, asset)
    requires NoCacheHit(cache, asset, clearCached)
    requires r.download.DownloadError?
    ensures var e := InstallEffect(cache, asset, clearCached, r);
      && e.report != Installed
      && (forall c :: c in e.calls ==> !c.Unzip?)
  {
    var e := InstallEffect(cache, asset, clearCached, r);
    forall c | c in e.calls
      ensures !c.Unzip?
    {
    }
  }

  /** A successful download is extracted from exactly the path it was written to. */
  lemma UnzipUsesDownloadedArchive(cache: Cache, assetId: string, r: Responses)
    requires r.fetch.status <= 400 && r.download.Written?
    ensures var e := ByIdEffect(cache, assetId, r);
      var a := r.fetch.addon;
      && e.calls == [FetchById(assetId), Download(a.downloadUrl, ArchivePath(a)), Unzip(ArchivePath(a), UnzipTarget)]
      && (e.report == Installed <==> r.unzipOk)
  {
  }

  /** A download into a directory that did not exist is what the next lookup of
      that add-on finds. */
  lemma DownloadThenLookup(cache: Cache, assetId: string, r: Responses)
    requires r.fetch.status <= 400 && r.download.Written?
    requires CacheKey(r.fetch.addon.author, r.fetch.addon.title) !in cache
    ensures var e := ByIdEffect(cache, assetId, r);
      var key := CacheKey(r.fetch.addon.author, r.fetch.addon.title);
      LookupSafe(e.cache, key) && CachedAsset(e.cache, key) == ArchivePath(r.fetch.addon)
  {
    var e := ByIdEffect(cache, assetId, r);
    var a := r.fetch.addon;
    var key := CacheKey(a.author, a.title);
    var name := ArchiveName(a.version, a.downloadCommit);
    assert key[|a.author|] == '/';
    assert e.cache[key] == {name};
    GreatestUnique({name}, name);
  }

  /** A download that fails without writing a file, for an add-on whose directory
      did not exist, still leaves that directory behind, empty: the next lookup
      of it that does not clear the cache reads past the end of the listing. */
  lemma FailedDownloadLeavesEmptyDirectory(cache: Cache, assetId: string, r: Responses)
    requires r.fetch.status <= 400 && r.download == DownloadError(false)
    requires CacheKey(r.fetch.addon.author, r.fetch.addon.title) !in cache
    ensures var e := ByIdEffect(cache, assetId, r);
      var key := CacheKey(r.fetch.addon.author, r.fetch.addon.title);
      && e.report == Failed(Downloading)
      && key in e.cache && e.cache[key] == {}
      && !LookupSafe(e.cache, key)
  {
    var a := r.fetch.addon;
    assert CacheKey(a.author, a.title)[|a.author|] == '/';
  }

  /** Installing the same version twice leaves the cache as installing it once:
      the archive name is the key, so a second download overwrites the first. */
  lemma ReinstallByIdIdempotent(cache: Cache, assetId: string, r: Responses)
    ensures var once := ByIdEffect(cache, assetId, r).cache;
      ByIdEffect(once, assetId, r).cache == once
  {
    var once := ByIdEffect(cache, assetId, r).cache;
    var a := r.fetch.addon;
    var key := CacheKey(a.author, a.title);
    var name := ArchiveName(a.version, a.downloadCommit);
    if r.fetch.status <= 400 {
      var twice := ByIdEffect(once, assetId, r).cache;
      assert key in once;
      assert MkdirAll(once, key) == once;
      if r.download.Written? || r.download.partialFile {
        assert name in once[key];
        assert once[key] + {name} == once[key];
      }
    }
  }

  /** After an uninstall (or a clearing install's removal), looking the reference
      up finds nothing, whatever the cache held before, and nothing below it remains. */
  lemma UninstallThenLookupMisses(cache: Cache, asset: string)
    ensures var c := RemoveAll(cache, asset);
      && LookupSafe(c, asset)
      && CachedAsset(c, asset) == ""
      && (forall k :: Under(k, asset) ==> k !in c)
  {
    var c := RemoveAll(cache, asset);
    assert Under(asset, asset);
  }

  /** A path naming one archive removes that file alone from its directory, and
      the next lookup of the directory picks the greatest of the names left; when
      it was the last one, the directory is left empty and the next lookup of it
      reads past the end of the listing. */
  lemma RemoveArchiveFile(cache: Cache, key: string, name: string)
    requires key in cache && '/' in key
    requires forall m :: m in cache[key] ==> '/' !in m
    ensures var c := RemoveAll(cache, JoinPath(key, name));
      && key in c && c[key] == cache[key] - {name}
      && (c[key] != {} ==>
            LookupSafe(c, key) && CachedAsset(c, key) == JoinPath(JoinPath(CacheFolder, key), Greatest(cache[key] - {name})))
      && (c[key] == {} ==> !LookupSafe(c, key))
  {
    var dir := JoinPath(key, name);
    var c := RemoveAll(cache, dir);
    assert !Under(key, dir);
    forall m | m in cache[key]
      ensures Under(JoinPath(key, m), dir) <==> m == name
    {
      EntryUnder(key, m, name);
    }
    assert c[key] == cache[key] - {name};
    if c[key] != {} {
      assert CachedAsset(c, key) != "";
      var g :| IsGreatest(c[key], g) && CachedAsset(c, key) == JoinPath(JoinPath(CacheFolder, key), g);
      GreatestUnique(c[key], g);
    }
  }

  /** An entry of a directory lies in the tree of a path in that directory
      exactly when it is that path. */
  lemma EntryUnder(key: string, m: string, name: string)
    requires '/' !in m
    ensures Under(JoinPath(key, m), JoinPath(key, name)) <==> m == name
  {
    var p, dir := JoinPath(key, m), JoinPath(key, name);
    assert p[|key| + 1..] == m && dir[|key| + 1..] == name;
    if |p| > |dir| && p[..|dir|] == dir {
      assert p[|dir|] == m[|name|];
    }
  }

  /** Uninstalling twice is uninstalling once. */
  lemma UninstallIdempotent(cache: Cache, asset: string)
    ensures RemoveAll(RemoveAll(cache, asset), asset) == RemoveAll(cache, asset)
  {
    var once := RemoveAll(cache, asset);
    var twice := RemoveAll(once, asset);
    assert twice.Keys == once.Keys;
    forall k | k in once
      ensures twice[k] == once[k]
    {
      assert forall n :: n in twice[k] <==> n in once[k];
    }
  }

  /** The archive name determines the version and commit when the version holds
      no underscore. */
  lemma ArchiveNameInjective(v1: string, c1: string, v2: string, c2: string)
    requires '_' !in v1 && '_' !in v2
    requires ArchiveName(v1, c1) == ArchiveName(v2, c2)
    ensures v1 == v2 && c1 == c2
  {
    var s := ArchiveName(v1, c1);
    assert s[|v1|] == '_' && s[|v2|] == '_';
    assert v1 == s[..|v1|] && v2 == s[..|v2|];
    assert c1 == s[|v1| + 1..|s| - 4] && c2 == s[|v2| + 1..|s| - 4];
  }

  /** The same for the whole archive path: within one add-on's directory,
      different versions or commits are stored apart when versions hold no
      underscore. */
  lemma ArchivePathInjective(a1: Addon, a2: Addon)
    requires a1.author == a2.author && a1.title == a2.title
    requires '_' !in a1.version && '_' !in a2.version
    requires ArchivePath(a1) == ArchivePath(a2)
    ensures a1.version == a2.version && a1.downloadCommit == a2.downloadCommit
  {
    ArchivePathSuffix(a1);
    ArchivePathSuffix(a2);
    ArchiveNameInjective(a1.version, a1.downloadCommit, a2.version, a2.downloadCommit);
  }

  /** What follows the add-on's directory in its archive path is the archive name. */
  lemma ArchivePathSuffix(a: Addon)
    ensures var dir := JoinPath(CacheFolder, CacheKey(a.author, a.title));
      |ArchivePath(a)| > |dir| && ArchivePath(a)[|dir| + 1..] == ArchiveName(a.version, a.downloadCommit)
  {
    var dir := JoinPath(CacheFolder, CacheKey(a.author, a.title));
    assert ArchivePath(a) == dir + "/" + ArchiveName(a.version, a.downloadCommit);
  }

  /** Without that condition two different versions share a file name, so one
      download overwrites the other. */
  lemma ArchiveNameCollision()
    ensures ArchiveName("1_2", "3") == ArchiveName("1", "2_3")
  {
  }

  /** The widget of the scenarios, as the registry describes it. */
  const Widget := Addon("42", "jane", "Widget", "1.2", "abcd", "https://x/widget.zip", "")

  /** Where the scenarios' widget archive is stored. */
  lemma WidgetArchivePath()
    ensures CacheKey(Widget.author, Widget.title) == "jane/Widget"
    ensures ArchiveName(Widget.version, Widget.downloadCommit) == "1.2_abcd.zip"
    ensures ArchivePath(Widget) == "gibson/addons/jane/Widget/1.2_abcd.zip"
  {
    assert CacheKey(Widget.author, Widget.title) == "jane" + "/" + "Widget" == "jane/Widget";
    assert ArchiveName(Widget.version, Widget.downloadCommit) == "1.2" + "_" + "abcd" + ".zip" == "1.2_abcd.zip";
    assert JoinPath(CacheFolder, "jane/Widget") == "gibson/addons" + "/" + "jane/Widget" == "gibson/addons/jane/Widget";
    assert JoinPath("gibson/addons/jane/Widget", "1.2_abcd.zip") == "gibson/addons/jane/Widget" + "/" + "1.2_abcd.zip";
  }

  /** Reference "42" fetched with status 200 as jane's "Widget" 1.2 at commit
      "abcd": the archive goes to jane/Widget/1.2_abcd.zip and is extracted from there. */
  lemma ScenarioById(cache: Cache, asset: string, r: Responses)
    requires asset == "42"
    requires r.fetch == FetchReply(200, Widget)
    requires r.download == Written && r.unzipOk
    ensures var e := InstallEffect(cache, asset, false, r);
      && e.calls == [FetchById("42"),
                     Download("https://x/widget.zip", "gibson/addons/jane/Widget/1.2_abcd.zip"),
                     Unzip("gibson/addons/jane/Widget/1.2_abcd.zip", UnzipTarget)]
      && e.report == Installed
      && "jane/Widget" in e.cache && "1.2_abcd.zip" in e.cache["jane/Widget"]
  {
    assert '/' !in asset;
    WidgetArchivePath();
    UnzipUsesDownloadedArchive(cache, asset, r);
    ByIdKeepsOthers(cache, asset, r);
  }

  /** The reference used by the two by-author scenarios. */
  lemma JaneWidgetSplits()
    ensures Split("jane/Widget") == ["jane", "Widget"]
    ensures Classify("jane/Widget") == ByAuthor("jane", "Widget")
  {
    SplitJoin(["jane", "Widget"]);
    assert Join(["jane", "Widget"]) == "jane/Widget";
  }

  /** The search answer of the second scenario: a "Gadget", then a "Widget". */
  const GadgetThenWidget := [
    Addon("7", "jane", "Gadget", "", "", "", ""),
    Addon("9", "jane", "Widget", "", "", "", "")]

  /** The exact title match in that answer is its second entry, with id "9". */
  lemma WidgetIsSecond()
    ensures FirstMatch(GadgetThenWidget, "Widget") == 1
    ensures GadgetThenWidget[1].assetId == "9"
  {
  }

  /** Reference "jane/Widget" with nothing cached; the search returns "Gadget"
      and "Widget": the "Widget" entry's id is fetched. */
  lemma ScenarioBySearch(cache: Cache, asset: string, r: Responses)
    requires asset == "jane/Widget" && asset !in cache
    requires r.search == SearchOk(AssetResult(GadgetThenWidget))
    ensures var e := InstallEffect(cache, asset, false, r);
      |e.calls| >= 2 && e.calls[0] == Search("jane", GodotVersion) && e.calls[1] == FetchById("9")
  {
    JaneWidgetSplits();
    WidgetIsSecond();
    CacheMissSearchesAuthor(cache, asset, false, r);
    FirstExactMatchIsFetched(cache, asset, false, r);
  }

  /** Of the two cached widget versions, 1.2_abcd.zip sorts last. */
  lemma CachedWidgetIsNewest()
    ensures Greatest({"1.0_aaa.zip", "1.2_abcd.zip"}) == "1.2_abcd.zip"
    ensures JoinPath(JoinPath(CacheFolder, "jane/Widget"), "1.2_abcd.zip") == "gibson/addons/jane/Widget/1.2_abcd.zip"
  {
    assert Less("1.0_aaa.zip", "1.2_abcd.zip");
    GreatestUnique({"1.0_aaa.zip", "1.2_abcd.zip"}, "1.2_abcd.zip");
  }

  /** Reference "jane/Widget" with 1.0_aaa.zip and 1.2_abcd.zip cached: the
      1.2_abcd.zip archive is extracted and no network call is made. */
  lemma ScenarioCached(cache: Cache, asset: string, r: Responses)
    requires asset == "jane/Widget"
    requires cache == map[asset := {"1.0_aaa.zip", "1.2_abcd.zip"}]
    ensures var e := InstallEffect(cache, asset, false, r);
      e.calls == [Unzip("gibson/addons/jane/Widget/1.2_abcd.zip", UnzipTarget)]
  {
    assert asset[4] == '/';
    CachedWidgetIsNewest();
    CacheHitShortCircuits(cache, asset, r);
  }
}
