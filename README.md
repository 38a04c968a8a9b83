# Add-on install pipeline of the gibson package manager, in Dafny

This project models the decision logic of `package-manager/package-manager.go`.
That file installs Godot add-ons from the Godot asset library and keeps downloaded
archives in a cache directory. The model covers these steps:

- A reference with a `/` is routed to the by-author path (`installByAuthor`).
  Any other string is treated as a registry id (`installById`).
- A by-author reference is split into author and title, as `strings.Split(asset, "/")` does at indices 0 and 1.
- The cache (`lookForCachedAsset`) is a map from a directory path under `gibson/addons` to the set of archive file names in it.
  A lookup lists the directory, sorts the names in descending order in place, and returns the first.
- The search answer is scanned for the first add-on whose `Title` equals the requested title exactly.
- On a fetch by id, only an HTTP status above 400 aborts.
  Otherwise the directory `Author/Title` is created and the archive is downloaded to `Author/Title/Version_Download_commit.zip`.
  The archive is then extracted into `addons`.
- `clearCache` and `UninstallAsset` remove what the reference names under the cache folder: a directory tree or a single archive. `clearCache` is used when an install is asked to bypass the cache.

The network and the extractor are outside the model. What they answer is a `Responses`
value passed in: the search reply, the fetch status and decoded `Addon`, the
download outcome, and whether extraction succeeded. Every call made to them is
appended to the installer's `calls` trace: `Search`, `FetchById`, `Download` and
`Unzip`. The report of an install says which phase failed: finding, retrieving,
downloading or installing. Those four phases match the source's four progress spinners.

Layout:

- `lex_order.dfy` (`LexOrder`): Go's string order, descending sortedness, and the greatest name of a set.
- `reference.dfy` (`Reference`): `Split`/`Join`, `Classify` and the splitting lemmas.
- `package_manager.dfy` (`PackageManager`):
  - the `Addon`/`AssetResult` records and the cache operations;
  - the effect functions that specify each Go function;
  - the in-place sort, the search loop, and the `Installer` class, whose methods mirror the Go functions and are proved against the effect functions.
- `install_properties.dfy` (`InstallProperties`): what the pipeline promises, stated over the effect functions, including three end-to-end scenarios.

Behaviour of the code that the model keeps on purpose:

- A fetch by id fails only when the status is strictly greater than 400.
  A status of exactly 400 proceeds to the download.
  So does a non-empty `Error` field, which is only printed; the transport error is ignored.
- `UninstallAsset` passes the raw reference to `clearCache` without parsing it.
  So `""` removes the whole cache, and a bare author name removes all of that author's add-ons.
  A reference naming one archive (`jane/Widget/1.2_abcd.zip`) removes that file alone (`RemoveArchiveFile`).
- The by-author lookup and clear use the whole reference string as the cache directory.
  The search and the title match use only its first two segments.
- Archive names collide when the version contains `_`: `ArchiveNameCollision` exhibits two (version, commit) pairs with the same file name.
- A failed download that writes no file leaves the new add-on's directory behind, empty.
  The same happens when the last archive of a directory is uninstalled.
  The next lookup of that directory without clearing reads entry 0 of an empty listing (`FailedDownloadLeavesEmptyDirectory`, `RemoveArchiveFile`).

## Model

| member | source | states |
|---|---|---|
| `Reference.Split` | package-manager/package-manager.go:89 | splitting on `/` yields at least one slash-free piece, exactly one iff there is no slash, and joining the pieces with `/` gives back the input |
| `Reference.SplitJoin` | package-manager/package-manager.go:89 | splitting a `/`-join of slash-free pieces gives back those pieces |
| `Reference.Classify` | package-manager/package-manager.go:167-173 | a reference is by id iff it contains no `/` (and the id is the whole string); otherwise author is the text before the first `/` and title the text up to the second `/` or the end, neither containing `/` |
| `Reference.SplitsAsUnique` | package-manager/package-manager.go:89-91 | a reference has only one author/title reading, so the one `Classify` gives is the only one |
| `Reference.ExtraSegmentsIgnored` | package-manager/package-manager.go:89-91 | `author/title/more` is classified exactly as `author/title`: further segments are dropped |
| `LexOrder.LessIsFirstDifference` | package-manager/package-manager.go:68 | the comparator's order holds exactly when, at the first position where the names part, the first name has ended or holds the smaller character |
| `LexOrder.LessIrreflexive` | package-manager/package-manager.go:67-69 | no name sorts strictly before itself under the comparator of the sort |
| `LexOrder.LessAsymmetric` | package-manager/package-manager.go:67-69 | two names are never each strictly before the other |
| `LexOrder.LessTransitive` | package-manager/package-manager.go:67-69 | the string order of the sort is transitive |
| `LexOrder.LessTotal` | package-manager/package-manager.go:67-69 | any two distinct names are ordered one way or the other |
| `LexOrder.Greatest` | package-manager/package-manager.go:67-70 | a non-empty set of names has a member that no other member sorts after |
| `LexOrder.GreatestUnique` | package-manager/package-manager.go:67-70 | that member is unique, so the entry picked does not depend on listing order |
| `LexOrder.SortedHeadIsGreatest` | package-manager/package-manager.go:67-70 | the head of a descending listing of a non-empty directory is its greatest name |
| `PackageManager.ArchiveName` | package-manager/package-manager.go:156 | the archive file name is the version, an underscore, the commit and `.zip`, each at a fixed position |
| `PackageManager.ArchivePath` | package-manager/package-manager.go:150-156 | the download path is, inside the cache folder, the file `ArchiveName` in the directory `Author/Title`, which is the entry the cache records |
| `PackageManager.RemoveAll` | package-manager/package-manager.go:54-57 | removal deletes exactly what the path names: a directory with the directories and files below it, or a single file; every other directory and file is kept, and a missing path is a no-op |
| `PackageManager.MkdirAll` | package-manager/package-manager.go:151-152 | afterwards the add-on's directory exists; an existing one keeps its files, a new one is empty, and every other directory keeps its contents |
| `PackageManager.WriteFile` | package-manager/package-manager.go:156-157 | a download adds its archive name to the add-on's directory and changes nothing else; rewriting the same name does not duplicate it |
| `PackageManager.CachedAsset` | package-manager/package-manager.go:59-76 | lookup yields `""` iff the reference has no `/` or its directory does not exist; otherwise `root/reference/name` for the greatest name in the directory |
| `PackageManager.FirstMatch` | package-manager/package-manager.go:119-125 | the index chosen is the first whose title equals the requested one exactly; every earlier entry differs, and the length means no entry matches |
| `PackageManager.ReadDir` | package-manager/package-manager.go:63 | the listing of a cache directory holds each of its names exactly once |
| `PackageManager.SortByNameDescending` | package-manager/package-manager.go:67-69 | after the in-place sort the names are in descending order and are a permutation of the listing |
| `PackageManager.InsertDescending` | package-manager/package-manager.go:67-69 | one insertion step extends the descending prefix by one element, losing and adding nothing |
| `PackageManager.FindAddon` | package-manager/package-manager.go:119-125 | the loop with `break` leaves the first exact title match selected, or the zero `Addon` when there is none |
| `PackageManager.Installer.LookForCachedAsset` | package-manager/package-manager.go:59-76 | listing, sorting descending and taking entry 0 returns exactly the lookup path `CachedAsset` specifies |
| `PackageManager.Installer.ClearCache` | package-manager/package-manager.go:54-57 | the cache afterwards is the old cache with what the reference names removed, a directory tree or one archive file; no external call is made |
| `PackageManager.Installer.InstallAsset` | package-manager/package-manager.go:78-86 | one `Unzip` of the given archive into `addons` is recorded; the report is success iff extraction succeeded |
| `PackageManager.Installer.InstallById` | package-manager/package-manager.go:138-165 | report, new cache and appended calls are those of the by-id effect: fetch, abort above 400, create the directory, download, extract |
| `PackageManager.Installer.InstallByAuthor` | package-manager/package-manager.go:88-136 | report, new cache and appended calls are those of the by-author effect: clear or look up, search, first exact match, continue by id |
| `PackageManager.Installer.InstallAddon` | package-manager/package-manager.go:167-173 | report, new cache and appended calls are those of the install effect for the reference's kind |
| `PackageManager.Installer.UninstallAsset` | package-manager/package-manager.go:175-182 | what the reference names in the cache, a directory tree or one archive file, is removed, and no external call is made |
| `InstallProperties.RoutingByKind` | package-manager/package-manager.go:167-173 | a slash-free reference starts with a fetch of that id and never searches; a reference with a slash starts with a search or with the extraction of a cached archive |
| `InstallProperties.ByIdNeverSearches` | package-manager/package-manager.go:138-165 | the by-id path makes no search, and its first call is the fetch of the id |
| `InstallProperties.CacheHitShortCircuits` | package-manager/package-manager.go:99-106 | without clearing, an existing cache directory leads straight to one extraction of its greatest archive; there is no search, fetch or download, and the cache is unchanged |
| `InstallProperties.CacheMissSearchesAuthor` | package-manager/package-manager.go:99-109 | when clearing or when the directory is missing, the first call is the search of the reference's author with Godot version 3.4 |
| `InstallProperties.ClearedCacheNeverReused` | package-manager/package-manager.go:99-100 | with clearing, nothing below the reference survives except this install's new archive; every extraction follows the download of that same archive, and with no download nothing remains below it |
| `InstallProperties.ByIdKeepsOthers` | package-manager/package-manager.go:150-164 | the by-id path only adds the new archive to the fetched add-on's directory; every other directory is unchanged, and each extraction directly follows the download of its archive |
| `InstallProperties.NoExactMatchStopsAtSearch` | package-manager/package-manager.go:115-131 | with no exact title match, or a match without id, the install fails in the finding phase after the search alone, and no fetch is made |
| `InstallProperties.EmptyResultSelectsNothing` | package-manager/package-manager.go:116-118 | an empty search result leaves the selected id empty |
| `InstallProperties.FirstExactMatchIsFetched` | package-manager/package-manager.go:119-134 | after the search, the id fetched is that of the first add-on in result order whose title matches exactly |
| `InstallProperties.StatusAbove400Aborts` | package-manager/package-manager.go:143-147 | the by-id path fails in retrieving iff the status exceeds 400, and then makes only the fetch and leaves the cache alone; 400 or below proceeds to download into `ArchivePath` after creating the directory |
| `InstallProperties.RejectedFetchNeverDownloads` | package-manager/package-manager.go:143-147 | a status above 400 on any install that misses the cache means no download and no extraction |
| `InstallProperties.DownloadFailureSkipsUnzip` | package-manager/package-manager.go:157-161 | a failed download means no extraction and no success report |
| `InstallProperties.UnzipUsesDownloadedArchive` | package-manager/package-manager.go:150-164 | on a good status and download, the calls are fetch, download to `ArchivePath`, and extraction of that same path; success iff extraction succeeds |
| `InstallProperties.DownloadThenLookup` | package-manager/package-manager.go:150-157 | an archive downloaded into a new directory is what the next lookup of `Author/Title` returns |
| `InstallProperties.ReinstallByIdIdempotent` | package-manager/package-manager.go:150-157 | installing the same version again leaves the cache as one install did |
| `InstallProperties.UninstallThenLookupMisses` | package-manager/package-manager.go:175-177 | after removal, the lookup of the reference yields `""` and no directory below it remains, whatever the cache held |
| `InstallProperties.RemoveArchiveFile` | package-manager/package-manager.go:54-57 | removing the path of one archive deletes that file alone from its directory; the next lookup picks the greatest remaining name, or panics on the emptied directory when none is left |
| `InstallProperties.FailedDownloadLeavesEmptyDirectory` | package-manager/package-manager.go:150-161 | a download that writes nothing, for an add-on without a directory, fails in the downloading phase but leaves the directory created, empty, so the next uncleared lookup of it is not safe |
| `InstallProperties.UninstallIdempotent` | package-manager/package-manager.go:54-57 | removing a tree twice is removing it once |
| `InstallProperties.ArchiveNameInjective` | package-manager/package-manager.go:156 | the archive name determines the version and commit when the version has no `_` |
| `InstallProperties.ArchivePathInjective` | package-manager/package-manager.go:150-156 | within one add-on's directory, equal archive paths with underscore-free versions force equal version and commit |
| `InstallProperties.ArchiveNameCollision` | package-manager/package-manager.go:156 | without that condition two different (version, commit) pairs share an archive name |
| `InstallProperties.ScenarioById` | package-manager/package-manager.go:138-165 | reference `42` answered with jane's Widget 1.2 at commit abcd is downloaded to and extracted from `gibson/addons/jane/Widget/1.2_abcd.zip` |
| `InstallProperties.ScenarioBySearch` | package-manager/package-manager.go:88-134 | for `jane/Widget` with no cache, a search answering Gadget then Widget leads to the fetch of Widget's id |
| `InstallProperties.ScenarioCached` | package-manager/package-manager.go:59-70 | for `jane/Widget` with `1.0_aaa.zip` and `1.2_abcd.zip` cached, only `1.2_abcd.zip` is extracted and no network call is made |

## Left out

- HTTP access (`doGet`, `downloadFile`, `baseUrl` and its query strings) is not modelled.
  Its answers are the `Responses` parameter, and its calls are the `Search`, `FetchById` and `Download` trace entries.
  Whether a failed download leaves a partial file is not visible in this file, so it is a choice in the download outcome.
- `unzip` and the directory it writes to are not modelled; each extraction is an `Unzip` call with an outcome.
- Progress reporting is not modelled: `yacspin`, the spinner helpers, `formatAsset`, the colour strings and every message.
  That includes `UninstallAsset` reporting success after a failed removal.
  It also includes the second failure message when the search result is empty (line 117 does not return); the report is a failure in the finding phase either way.
- `initPM`, `init` and `os.UserCacheDir` are not modelled; the cache root is the constant `gibson/addons`.
- `filepath.Join` path cleaning is not modelled: `..`, repeated or trailing separators, and an empty author or title.
  Joining is concatenation with `/`. A reference naming an intermediate directory (such as `jane/`) is not found by the lookup in the model.
- `PackageManager.CachedAsset`, `PackageManager.ReadDir`: a directory listing holds only the archive files of the directory.
  `ioutil.ReadDir` also lists subdirectories, which a `Cache` does not place inside their parent directory.
  The pipeline itself only creates `Author/Title` directories, which hold files alone, unless an author or title contains `/`.
  A reference naming a file (`jane/Widget/1.2_abcd.zip`) is not a key, so the lookup misses, as the failing `ReadDir` of that file makes the source miss.
- File-system errors of `os.Stat`, `ioutil.ReadDir`, `os.MkdirAll` and `os.RemoveAll` are not modelled; these operations always succeed in the model.
  In the source, a `ReadDir` error is treated as a cache miss, and the errors of `MkdirAll` and of the install-time `clearCache` are ignored.
- Go compares strings byte by byte. The model compares characters, which gives the same order on well-formed UTF-8 names.
- `PackageManager.Installer.LookForCachedAsset`: an existing but empty cache directory makes the source index `fs[0]` out of range and panic.
  The model requires the directory to be non-empty (`LookupSafe`), and so do the install methods on the path that consults the cache.
  The model does not say what happens after that panic.
  The pipeline creates such directories itself (`FailedDownloadLeavesEmptyDirectory`, `RemoveArchiveFile`).
- `LexOrder.Greatest` and `PackageManager.CachedAsset` are ghost, because they choose from a set.
  The executable lookup is `PackageManager.Installer.LookForCachedAsset`.
