# ciel release-feed layer, modelled in Dafny

This project models the remote side of ciel, a version manager for
precompiled PDK (process design kit) archives. It covers the part of
`ciel/source.py` that turns a repository's GitHub release feed into
installable versions and downloadable archives:

- **Version discovery** (`GitHubReleasesDataSource.get_available_versions`).
  It pages through the release list, 100 releases a page, while the last
  page came back full. It skips drafts and splits each tag `<family>-<hash>`
  at its last `-`. It keeps the releases of the requested PDK family and
  reads an optional commit date from a `released on <stamp>` phrase in the
  body. It builds `Version` records, sorts them newest first, and reports an
  error naming the family and the repository when none are left.
- **Asset resolution** (`get_downloads_for_version`). It looks up the release
  tagged `<pdk>-<name>` and keeps the assets whose name ends in `.tar.zst`.
  Each kept asset's `content` is its name without that suffix.
- **Data-source selection** (`__set_data_source_default`). The module
  registers the `github-releases` class in the class-level table. It then
  cuts the `CIEL_DATA_SOURCE` selector `<class_id>:<argument>` at its first
  `:`, looks the class up, and builds the default source from the argument.
  A selector without `:` or with an unknown class ends the process.
- The `Asset` value type (`Records.Asset`) and the `Version` record
  (`Records.Version`).

Layout, one module per file:

| file | module | contents |
|---|---|---|
| `wrappers.dfy` | `Wrappers` | `Option`, `Result` |
| `text.dfy` | `Text` | `split(":", maxsplit=1)`, `rsplit("-", maxsplit=1)`, `endswith` |
| `records.dfy` | `Records` | releases, versions, assets, errors, the session and date parser as function types |
| `commit_date.dfy` | `CommitDate` | the search for `released on ([\d\-\:TZ]+)` |
| `pagination.dfy` | `Pagination` | the paging loop as a function `Crawl`, the page-request finding |
| `version_order.dfy` | `VersionOrder` | `versions.sort(reverse=True)` as a stable newest-first sort |
| `github_source.dfy` | `GitHubSource` | the per-release step, the discovery and asset specifications, class `GitHubReleasesDataSource` |
| `registry.dfy` | `Registry` | selector resolution, class `DataSourceRegistry` holding `factory` and `default` |

External collaborators are parameters:

- The HTTP session is two functions: `Lister` maps each release-list query
  actually sent (page, per_page) to a page of releases or an `HttpError`.
  `TagLookup` maps a tag to a release or an `HttpError`.
- `date_from_iso8601` is a function `DateParser` from text to `Timestamp`.
- `os.getenv` is an `Option<string>` argument. The default selector is
  `github-releases:efabless/volare`.

In these places the code behaves in ways one might not expect, and the
model follows the code:

- A non-draft release whose tag holds no `-` makes the two-value unpacking
  at `ciel/source.py:80` fail. Discovery then fails (`MalformedTag`). The
  release is not skipped. Drafts are skipped before the split, so a draft
  with such a tag does no harm (`GitHubSource.ExamineMeaning`,
  `GitHubSource.CollectFails`).
- A selector with more than one `:` is accepted. Everything after the first
  `:` is the argument (`Registry.ExtraColonExample`).
- The loop stops on any page that does not hold exactly 100 releases. Even with correct page
  numbers, a feed of N releases takes N / 100 + 1 requests, not
  ceil(N / 100): a feed of exactly 100 releases needs a second, empty page
  (`Pagination.NextPageCrawlCollectsFeed`).
- No deduplication takes place. Every matching release yields one version
  (`GitHubSource.CollectIsContributing`).

## Model

| member | source | states |
|---|---|---|
| `Text.SplitFirst` | ciel/source.py:133-134 | `split(":", maxsplit=1)` has one part exactly when the separator is absent; otherwise the head holds no separator and head + ":" + tail is the input |
| `Text.SplitFirstOf` | ciel/source.py:133-139 | the split at the first separator is unique: head + sep + tail with no sep in head splits back into head and tail |
| `Text.RSplitLast` | ciel/source.py:80 | `rsplit("-", maxsplit=1)` fails to give two values exactly when the tag has no `-`; otherwise the hash holds no `-` and family + "-" + hash is the tag |
| `Text.RSplitLastOf` | ciel/source.py:80 | the split at the last separator is unique: head + sep + tail with no sep in tail splits back into head and tail |
| `CommitDate.RunEnd` | ciel/source.py:75 | the greedy `+` run: every character up to the end is a timestamp character and the next one is not |
| `CommitDate.FirstMatch` | ciel/source.py:88 | `search` finds the leftmost position where the pattern matches, or none |
| `CommitDate.CommitStamp` | ciel/source.py:75-89 | no stamp exactly when no position of the body matches; a stamp is non-empty and made of `[0-9-:TZ]` only |
| `CommitDate.CommitStampAt` | ciel/source.py:75-89 | given the leftmost match, the body there reads `released on ` + stamp and the stamp cannot be extended |
| `CommitDate.StampAfterMarker` | ciel/source.py:75-89 | text without a match, the marker, a run of timestamp characters and a non-timestamp character yield exactly that run |
| `CommitDate.ReleasedOnExample` | ciel/source.py:86-90 | `CI: released on 2022-05-01T12:00:00Z.` yields `2022-05-01T12:00:00Z` |
| `CommitDate.NoPhraseExample` | ciel/source.py:86-90 | a body without the phrase yields no stamp and no error |
| `Pagination.Crawl` | ciel/source.py:56-72 | the paging loop for a given page schedule and request budget; it fails only with a transport error or the request limit |
| `Pagination.CrawlStopsAtFirstShortPage` | ciel/source.py:56-72 | paging goes on exactly while the last page was full: with the n-th page the first short one, the outcome is the n pages concatenated |
| `Pagination.CrawlIsConcatenation` | ciel/source.py:56-72 | every successful paging result is full pages followed by one short page, concatenated in order |
| `Pagination.AsWrittenCrawlRepeatsFirstPage` | ciel/source.py:56-72 | as written, every request asks for page 1: a full first page never ends the loop, otherwise only page 1 is gathered |
| `Pagination.NextPageCrawlCollectsFeed` | ciel/source.py:64-72 | asking for pages 1, 2, 3, ... gathers all N releases of a feed in order with exactly N / 100 + 1 requests |
| `VersionOrder.Insert` | ciel/source.py:101 | one step of the sort: the result holds `v` and is one longer; with `InsertHoldsInputAndV` and `InsertKeepsNewestFirst`, it is the input plus `v`, still newest first |
| `VersionOrder.SortNewestFirst` | ciel/source.py:101 | `sort(reverse=True)` keeps the length; its order, permutation and stability are the next two rows |
| `VersionOrder.SortNewestFirstCorrect` | ciel/source.py:101 | the sorted list is newest first and a permutation of the versions found |
| `VersionOrder.SortNewestFirstIsStable` | ciel/source.py:101 | versions with equal upload dates keep their feed order |
| `VersionOrder.ThreeUploadsExample` | ciel/source.py:101 | uploads of 2021, 2023 and 2022 come out 2023, 2022, 2021 |
| `GitHubSource.CommitDateOf` | ciel/source.py:86-90 | `commit_date` is None exactly when the body has no `released on` match, else the parsed stamp |
| `GitHubSource.VersionOf` | ciel/source.py:92-98 | a release of family pdk yields a version with that pdk whose pdk + "-" + name is the tag and whose name holds no `-` |
| `GitHubSource.TagSplitsIntoFamily` | ciel/source.py:80-83 | the last-`-` split gives family pdk exactly when the tag is pdk, `-` and a hash without `-`; the name is the rest |
| `GitHubSource.ExamineMeaning` | ciel/source.py:76-99 | a draft is skipped whatever its tag; otherwise a tag without `-` is an error, another family is skipped, and family pdk yields its version |
| `GitHubSource.Examine` | ciel/source.py:76-99 | one loop step: a draft is skipped, an error is the malformed-tag error of a tag without `-`, and a kept version comes from a non-draft release of pdk and has that pdk |
| `GitHubSource.Collect` | ciel/source.py:76-99 | the walk over the releases: a success holds no more versions than releases, all of pdk; a failure is a malformed tag |
| `GitHubSource.Contributing` | ciel/source.py:76-99 | the reference outcome: one version per non-draft release of pdk, in feed order, never longer than the feed |
| `GitHubSource.CollectIsContributing` | ciel/source.py:76-99 | a successful walk is exactly the reference outcome: nothing is deduplicated or reordered |
| `GitHubSource.ContributingConcat` | ciel/source.py:76-99 | feed order: the reference outcome of two runs of releases is that of the first followed by that of the second |
| `GitHubSource.CollectPrefixError` | ciel/source.py:76-80 | the first malformed tag met stops the walk with its error |
| `GitHubSource.CollectSound` | ciel/source.py:76-99 | every version found comes from a non-draft release of pdk; never more versions than releases |
| `GitHubSource.CollectComplete` | ciel/source.py:76-99 | every non-draft release of pdk yields its version |
| `GitHubSource.CollectFails` | ciel/source.py:76-80 | the walk fails exactly when some non-draft release's tag has no `-`, and with that tag |
| `GitHubSource.FamilyTagsExample` | ciel/source.py:80-83 | "sky130-ef0123" belongs to sky130; "skyN-abcd123" and "sky130-extra-9999" do not; the latter splits into "sky130-extra" and "9999" |
| `GitHubSource.AvailableVersions` | ciel/source.py:55-106 | `get_available_versions`: a success is non-empty; a failure is a transport error, the request limit, a malformed tag or not-found naming pdk and the repository |
| `GitHubSource.AvailableVersionsSound` | ciel/source.py:55-106 | a successful discovery is non-empty and newest first, holds exactly the versions of the fetched non-draft releases of pdk, each with pdk + "-" + name among the tags, and is the reference outcome (one version per such release, feed order) sorted newest first |
| `GitHubSource.AvailableVersionsFailures` | ciel/source.py:55-106 | a failure is a transport error or request limit of the paging, a malformed tag of a non-draft release, or not-found naming pdk and the repository when no release of pdk was fetched |
| `GitHubSource.NotFoundWhenNothingMatches` | ciel/source.py:101-105 | with well-formed tags and no non-draft release of pdk, discovery reports not-found naming pdk and the repository |
| `GitHubSource.StripArchiveSuffix` | ciel/source.py:120-121 | removing the last 8 characters of an archive name leaves content with content + ".tar.zst" == name |
| `GitHubSource.StripArchiveSuffixRoundTrip` | ciel/source.py:120-121 | content + ".tar.zst" is an archive name and stripping it gives back content |
| `GitHubSource.AssetOf` | ciel/source.py:120-123 | the asset keeps the name as filename and the download URL as url, with content + ".tar.zst" == filename |
| `GitHubSource.ArchiveAssets` | ciel/source.py:117-125 | never more assets than in the feed, each with content + ".tar.zst" == filename |
| `GitHubSource.ArchiveAssetsExact` | ciel/source.py:117-125 | the result holds exactly the assets whose name ends in ".tar.zst", each built from its own feed entry |
| `GitHubSource.ArchiveAssetsConcat` | ciel/source.py:119-124 | feed order: the archives of two runs of assets are those of the first followed by those of the second |
| `GitHubSource.AssetExample` | ciel/source.py:117-125 | of "a.tar.zst", "a.tar.zst.sha256", "readme.md" only the first is kept, with content "a" |
| `GitHubSource.GitHubReleasesDataSource.constructor` | ciel/source.py:51-53 | the backend keeps the repository identifier it is built with |
| `GitHubSource.GitHubReleasesDataSource.GetAvailableVersions` | ciel/source.py:55-106 | the result is the discovery specification: non-empty, newest first, all of family pdk with names free of `-` |
| `GitHubSource.GitHubReleasesDataSource.ListReleases` | ciel/source.py:56-72 | the paging loop, always sending page 1, gathers what `Crawl` with that schedule gathers |
| `GitHubSource.GitHubReleasesDataSource.VersionsOfFamily` | ciel/source.py:74-99 | the loop over the releases builds what the per-release walk `Collect` builds, stopping at the first malformed tag |
| `GitHubSource.GitHubReleasesDataSource.GetDownloadsForVersion` | ciel/source.py:108-125 | looks up tag pdk + "-" + name; a lookup failure is passed on, otherwise the result is the archive assets of that release |
| `Records.Asset` | ciel/source.py:30-34 | a downloadable archive: its content name, its file name and its download URL; `GitHubSource.AssetOf` builds it from a feed entry, and the loop of `GetDownloadsForVersion` builds the same value inline |
| `Registry.SelectorFromEnv` | ciel/source.py:132 | the environment value when it is set, otherwise the default selector `github-releases:efabless/volare` |
| `Registry.StandardFactory` | ciel/source.py:128 | the table as the module fills it: exactly `github-releases`, mapped to the GitHub-releases class |
| `Registry.ResolveSelector` | ciel/source.py:132-145 | refused as malformed exactly when the selector has no `:`; an accepted selector is a table identifier, `:` and the argument |
| `Registry.ResolveSelectorSplitsAtFirstColon` | ciel/source.py:133-145 | for an identifier without `:`, the selector resolves to its table entry and the whole rest as argument, or to an unknown-class error |
| `Registry.DefaultSelectorExample` | ciel/source.py:132-146 | with no environment value, the GitHub-releases class is chosen for `efabless/volare` |
| `Registry.UnknownClassExample` | ciel/source.py:140-145 | `bogus:x` is refused as an unknown class `bogus` |
| `Registry.NoColonExample` | ciel/source.py:133-138 | `no-colon-here` is refused as malformed |
| `Registry.ExtraColonExample` | ciel/source.py:133-139 | further `:` stay in the argument |
| `Registry.DataSourceRegistry.constructor` | ciel/source.py:38-39 | the table starts empty and no default is set |
| `Registry.DataSourceRegistry.Register` | ciel/source.py:128 | the table gains the entry and keeps the others |
| `Registry.DataSourceRegistry.SetDataSourceDefault` | ciel/source.py:131-146 | a refused selector exits with status -1 and leaves the default unset; an accepted one sets a fresh backend for the argument |
| `Registry.LoadDataSources` | ciel/source.py:128-149 | `github-releases` is registered before the selector is resolved; the outcome is that of resolving it against that table |

## Findings

| source | as written | input that shows it | evidently intended | confidence | as-written member | corrected member |
|---|---|---|---|---|---|---|
| ciel/source.py:65-70 | `page` is incremented but every request sends `"page": 1` | a feed whose first page holds 100 releases: page 1 is asked for again and again, and the loop never ends | send `"page": page`, so that pages 1, 2, 3, ... are gathered | high; not executed | `Pagination.AsWrittenCrawlRepeatsFirstPage` | `Pagination.NextPageCrawlCollectsFeed` |

The corrected schedule (`Pagination.NextPage`) is proved in `Pagination`.
`GitHubReleasesDataSource.ListReleases` keeps the request as the code
writes it.

## Left out

- GitHubSource.GitHubReleasesDataSource.ListReleases: sends at most `maxRequests` requests and then stops with `RequestLimitReached`. The source has no bound, and with a full first page it never stops.
- GitHubSource.GitHubReleasesDataSource.GetAvailableVersions: the first and the repeated release-list requests form one loop. The model is proved against a deterministic session, whose repeated request returns the same page every time.
- GitHubSource.CommitDateOf: `date_from_iso8601` is not part of this model. It is a total function here, so a captured stamp it cannot parse (say `--`) is not modelled as the error it may raise.
- CommitDate.CommitStamp: `\d` is read as the ASCII digits. Python's `re` on `str` also accepts other Unicode decimal digits.
- VersionOrder.SortNewestFirstCorrect: the order of `Version` lives in `ciel/common.py`, which is not part of this model. It is taken to be the order of upload dates. The library sort is modelled as a stable insertion sort on a sequence, not as an in-place list sort.
- `RepoInfo.from_id`: `ciel/github.py` is not part of this model. The repository is kept as its identifier string.
- The HTTP session (`GitHubSession.api`, httpx) is two function parameters. Missing keys in the feed's JSON (a `KeyError`) are not modelled, and neither is a `None` body.
- The abstract `DataSource` methods only raise `NotImplementedError`. `GitHubReleasesDataSource` does not derive from `DataSource` in the source. The registry holds a `GitHubReleasesDataSource` directly.
- The class-level fields `DataSource.factory` and `DataSource.default` are the fields of one `DataSourceRegistry` object.
- The `[CRITICAL]` messages printed before exiting are not modelled. `sys.exit(-1)` is the `Exit(-1, reason)` outcome.
- The return annotation of `get_downloads_for_version` names a tuple with an `httpx.Client`. The code returns the list of assets, and so does the model.
- `ciel/__main__.py` (command-line interface, console output, the `ssl` import check) is not part of this model.
