/** The GitHub-releases backend: discovering the versions of one PDK family
    from the repository's release list, and the archives attached to one
    version's release. */
module GitHubSource {
  import opened Wrappers
  import opened Text
  import opened Records
  import opened CommitDate
  import opened Pagination
  import opened VersionOrder

  /** The suffix of the archives a release ships. */
  const ArchiveSuffix: string := ".tar.zst"

  // ---------------------------------------------------------------------
  // Reading one release
  // ---------------------------------------------------------------------

  /** `commit_date`: the parsed stamp that follows `released on ` in the
      body, or None when the body holds no such stamp. */
  function CommitDateOf(parseDate: DateParser, body: string): (r: Option<Timestamp>)
    ensures r.None? <==> forall k :: 0 <= k < |body| ==> !MatchAt(body, k)
    ensures r.Some? ==> exists stamp :: CommitStamp(body) == Some(stamp) && r.value == parseDate(stamp)
  {
    match CommitStamp(body)
    case None => None
    case Some(stamp) => Some(parseDate(stamp))
  }

  /** `tag` is `pdk`, a `-`, and a hash that holds no `-`. */
  predicate TagOfFamily(tag: string, pdk: string)
  {
    |pdk| < |tag| && tag[..|pdk|] == pdk && tag[|pdk|] == '-' && '-' !in tag[|pdk| + 1..]
  }

  /** A release that yields a version of `pdk`. */
  predicate Contributes(pdk: string, rel: Release)
  {
    !rel.draft && TagOfFamily(rel.tagName, pdk)
  }

  /** The version a release of family `pdk` yields. */
  function VersionOf(pdk: string, parseDate: DateParser, rel: Release): (v: Version)
    requires TagOfFamily(rel.tagName, pdk)
    ensures v.pdk == pdk && '-' !in v.name
    ensures v.pdk + "-" + v.name == rel.tagName
  {
    assert rel.tagName == pdk + "-" + rel.tagName[|pdk| + 1..];
    Version(rel.tagName[|pdk| + 1..], pdk, CommitDateOf(parseDate, rel.body),
            parseDate(rel.publishedAt), rel.prerelease)
  }

  /** Splitting a tag at its last `-` gives the family `pdk` exactly when the
      tag is `pdk`, a `-` and a hash without `-`; the hash is then the rest. */
  lemma TagSplitsIntoFamily(tag: string, pdk: string)
    ensures (RSplitLast(tag, '-').Some? && RSplitLast(tag, '-').value.0 == pdk) <==> TagOfFamily(tag, pdk)
    ensures TagOfFamily(tag, pdk) ==> RSplitLast(tag, '-').value.1 == tag[|pdk| + 1..]
  {
    if TagOfFamily(tag, pdk) {
      assert tag == pdk + "-" + tag[|pdk| + 1..];
      RSplitLastOf(pdk, '-', tag[|pdk| + 1..]);
    }
    var r := RSplitLast(tag, '-');
    if r.Some? && r.value.0 == pdk {
      var (f, h) := r.value;
      assert tag == f + "-" + h;
      assert tag[..|pdk|] == pdk;
      assert tag[|pdk| + 1..] == h;
    }
  }

  /** One step of the loop over the releases: Ok(None) to skip, Ok(Some(v))
      to append `v`, Err when the tag cannot be split. */
  function Examine(pdk: string, parseDate: DateParser, rel: Release): (r: Result<Option<Version>, FeedError>)
    ensures rel.draft ==> r == Ok(None)
    ensures r.Err? ==> r.error == MalformedTag(rel.tagName) && '-' !in rel.tagName
    ensures r.Ok? && r.value.Some? ==> Contributes(pdk, rel) && r.value.value.pdk == pdk
  {
    if rel.draft then Ok(None)
    else
      match RSplitLast(rel.tagName, '-')
      case None => Err(MalformedTag(rel.tagName))
      case Some((family, hash)) =>
        if pdk != family then Ok(None)
        else Ok(Some(Version(hash, family, CommitDateOf(parseDate, rel.body),
                             parseDate(rel.publishedAt), rel.prerelease)))
  }

  /** What one release does: drafts are skipped whatever their tag; a tag
      with no `-` is an error; a release of another family is skipped; a
      release of `pdk` yields its version. */
  lemma ExamineMeaning(pdk: string, parseDate: DateParser, rel: Release)
    ensures Examine(pdk, parseDate, rel) ==
      if rel.draft then Ok(None)
      else if '-' !in rel.tagName then Err(MalformedTag(rel.tagName))
      else if TagOfFamily(rel.tagName, pdk) then Ok(Some(VersionOf(pdk, parseDate, rel)))
      else Ok(None)
  {
    TagSplitsIntoFamily(rel.tagName, pdk);
  }

  /** The versions of `pdk` that `rs` yields, in feed order; the first
      malformed tag of a non-draft release stops the walk. */
  function Collect(pdk: string, parseDate: DateParser, rs: seq<Release>): (r: Result<seq<Version>, FeedError>)
    ensures r.Ok? ==> |r.value| <= |rs| && forall v :: v in r.value ==> v.pdk == pdk
    ensures r.Err? ==> r.error.MalformedTag?
  {
    if |rs| == 0 then Ok([])
    else Then(Collect(pdk, parseDate, rs[..|rs| - 1]), Examine(pdk, parseDate, rs[|rs| - 1]))
  }

  /** Appends the outcome of one more release to the versions found so far. */
  function Then(sofar: Result<seq<Version>, FeedError>, step: Result<Option<Version>, FeedError>)
    : Result<seq<Version>, FeedError>
  {
    match sofar
    case Err(e) => Err(e)
    case Ok(vs) =>
      match step
      case Err(e) => Err(e)
      case Ok(None) => Ok(vs)
      case Ok(Some(v)) => Ok(vs + [v])
  }

  lemma CollectNext(pdk: string, parseDate: DateParser, rs: seq<Release>, i: nat)
    requires i < |rs|
    ensures Collect(pdk, parseDate, rs[..i + 1]) == Then(Collect(pdk, parseDate, rs[..i]), Examine(pdk, parseDate, rs[i]))
  {
    assert rs[..i + 1][..i] == rs[..i];
  }

  /** An error met in a prefix of the releases is the error of the whole
      walk. */
  lemma {:induction false} CollectPrefixError(pdk: string, parseDate: DateParser, rs: seq<Release>, i: nat)
    requires i <= |rs|
    requires Collect(pdk, parseDate, rs[..i]).Err?
    ensures Collect(pdk, parseDate, rs) == Collect(pdk, parseDate, rs[..i])
    decreases |rs|
  {
    if i < |rs| {
      var init := rs[..|rs| - 1];
      assert init[..i] == rs[..i];
      CollectPrefixError(pdk, parseDate, init, i);
    } else {
      assert rs[..i] == rs;
    }
  }

  /** Every version found comes from a non-draft release of `pdk` whose tag
      is `pdk` + "-" + the version's name, and there are no more versions
      than releases. */
  lemma {:induction false} CollectSound(pdk: string, parseDate: DateParser, rs: seq<Release>)
    requires Collect(pdk, parseDate, rs).Ok?
    ensures |Collect(pdk, parseDate, rs).value| <= |rs|
    ensures forall v :: v in Collect(pdk, parseDate, rs).value ==>
      exists rel :: rel in rs && Contributes(pdk, rel) && v == VersionOf(pdk, parseDate, rel)
  {
    if |rs| > 0 {
      var init, last := rs[..|rs| - 1], rs[|rs| - 1];
      CollectSound(pdk, parseDate, init);
      ExamineMeaning(pdk, parseDate, last);
      assert forall rel :: rel in init ==> rel in rs;
      assert last in rs;
    }
  }

  /** The reference outcome of a walk with well-formed tags: one version
      for each non-draft release of `pdk`, in feed order, and nothing for
      the other releases. */
  function Contributing(pdk: string, parseDate: DateParser, rs: seq<Release>): (vs: seq<Version>)
    ensures |vs| <= |rs|
  {
    if |rs| == 0 then []
    else
      var last := rs[|rs| - 1];
      Contributing(pdk, parseDate, rs[..|rs| - 1])
        + (if Contributes(pdk, last) then [VersionOf(pdk, parseDate, last)] else [])
  }

  /** A successful walk yields exactly the reference outcome: no release of
      `pdk` is dropped or merged with another, and feed order is kept. */
  lemma {:induction false} CollectIsContributing(pdk: string, parseDate: DateParser, rs: seq<Release>)
    requires Collect(pdk, parseDate, rs).Ok?
    ensures Collect(pdk, parseDate, rs).value == Contributing(pdk, parseDate, rs)
  {
    if |rs| > 0 {
      var init := rs[..|rs| - 1];
      ExamineMeaning(pdk, parseDate, rs[|rs| - 1]);
      CollectIsContributing(pdk, parseDate, init);
    }
  }

  /** The reference outcome of two runs of releases is that of the first
      run followed by that of the second. */
  lemma {:induction false} ContributingConcat(pdk: string, parseDate: DateParser, xs: seq<Release>, ys: seq<Release>)
    ensures Contributing(pdk, parseDate, xs + ys) == Contributing(pdk, parseDate, xs) + Contributing(pdk, parseDate, ys)
    decreases |ys|
  {
    if |ys| == 0 {
      assert xs + ys == xs;
    } else {
      var init := ys[..|ys| - 1];
      ContributingConcat(pdk, parseDate, xs, init);
      assert (xs + ys)[..|xs + ys| - 1] == xs + init;
      assert (xs + ys)[|xs + ys| - 1] == ys[|ys| - 1];
    }
  }

  /** Every non-draft release of `pdk` yields its version. */
  lemma {:induction false} CollectComplete(pdk: string, parseDate: DateParser, rs: seq<Release>)
    requires Collect(pdk, parseDate, rs).Ok?
    ensures forall rel :: rel in rs && Contributes(pdk, rel) ==>
      VersionOf(pdk, parseDate, rel) in Collect(pdk, parseDate, rs).value
  {
    if |rs| > 0 {
      var init, last := rs[..|rs| - 1], rs[|rs| - 1];
      CollectComplete(pdk, parseDate, init);
      ExamineMeaning(pdk, parseDate, last);
      assert rs == init + [last];
      assert forall rel :: rel in rs ==> rel in init || rel == last;
    }
  }

  /** The walk fails exactly when some non-draft release has a tag without
      `-`, and then with the tag of such a release. */
  lemma {:induction false} CollectFails(pdk: string, parseDate: DateParser, rs: seq<Release>)
    ensures Collect(pdk, parseDate, rs).Err? <==>
      exists rel :: rel in rs && !rel.draft && '-' !in rel.tagName
    ensures Collect(pdk, parseDate, rs).Err? ==>
      exists rel :: rel in rs && !rel.draft && '-' !in rel.tagName
                    && Collect(pdk, parseDate, rs).error == MalformedTag(rel.tagName)
  {
    if |rs| > 0 {
      var init, last := rs[..|rs| - 1], rs[|rs| - 1];
      CollectFails(pdk, parseDate, init);
      ExamineMeaning(pdk, parseDate, last);
      assert rs == init + [last];
      assert forall rel :: rel in rs ==> rel in init || rel == last;
      assert forall rel :: rel in init ==> rel in rs;
    }
  }

  /** A family name that holds `-`: splitting at the last `-`,
      `sky130-extra-9999` belongs to `sky130-extra`, not to `sky130`;
      `sky130-ef0123` belongs to `sky130` and `skyN-abcd123` does not. */
  lemma FamilyTagsExample()
    ensures !TagOfFamily("skyN-abcd123", "sky130")
    ensures TagOfFamily("sky130-ef0123", "sky130")
    ensures !TagOfFamily("sky130-extra-9999", "sky130")
    ensures TagOfFamily("sky130-extra-9999", "sky130-extra")
    ensures RSplitLast("sky130-extra-9999", '-') == Some(("sky130-extra", "9999"))
  {
    var t1, t2, t3 := "skyN-abcd123", "sky130-ef0123", "sky130-extra-9999";
    assert t1[3] != "sky130"[3];
    assert t2[..6] == "sky130";
    assert t2[7..] == "ef0123";
    assert t3[..6] == "sky130";
    assert t3[7..][5] == '-';
    assert t3[..12] == "sky130-extra";
    assert t3[13..] == "9999";
    assert t3 == "sky130-extra" + "-" + "9999";
    RSplitLastOf("sky130-extra", '-', "9999");
  }

  /** The whole of `get_available_versions`: page through the list, walk the
      releases, sort newest first, and report an empty outcome. */
  function AvailableVersions(list: Lister, parseDate: DateParser, repo: string, pdk: string, maxRequests: nat)
    : (r: Result<seq<Version>, FeedError>)
    ensures r.Ok? ==> |r.value| >= 1
    ensures r.Err? ==> r.error.Transport? || r.error == RequestLimitReached
                       || r.error.MalformedTag? || r.error == NoVersionsFound(pdk, repo)
  {
    match Crawl(list, AlwaysFirstPage, 0, maxRequests)
    case Err(e) => Err(e)
    case Ok(releases) =>
      match Collect(pdk, parseDate, releases)
      case Err(e) => Err(e)
      case Ok(vs) =>
        var sorted := SortNewestFirst(vs);
        if |sorted| == 0 then Err(NoVersionsFound(pdk, repo)) else Ok(sorted)
  }

  /** A successful discovery returns a non-empty list, newest first, of
      exactly the versions of the non-draft releases of `pdk` fetched: the
      reference outcome, one version per such release, sorted. */
  lemma AvailableVersionsSound(list: Lister, parseDate: DateParser, repo: string, pdk: string, maxRequests: nat)
    requires AvailableVersions(list, parseDate, repo, pdk, maxRequests).Ok?
    ensures Crawl(list, AlwaysFirstPage, 0, maxRequests).Ok?
    ensures var rs := Crawl(list, AlwaysFirstPage, 0, maxRequests).value;
      var vs := AvailableVersions(list, parseDate, repo, pdk, maxRequests).value;
      1 <= |vs| <= |rs| && NewestFirst(vs)
      && (forall v :: v in vs ==> v.pdk == pdk && '-' !in v.name && pdk + "-" + v.name in TagsOf(rs))
      && (forall v :: v in vs ==> exists rel :: rel in rs && Contributes(pdk, rel) && v == VersionOf(pdk, parseDate, rel))
      && (forall rel :: rel in rs && Contributes(pdk, rel) ==> VersionOf(pdk, parseDate, rel) in vs)
      && vs == SortNewestFirst(Contributing(pdk, parseDate, rs))
  {
    var rs := Crawl(list, AlwaysFirstPage, 0, maxRequests).value;
    var found := Collect(pdk, parseDate, rs).value;
    CollectIsContributing(pdk, parseDate, rs);
    CollectSound(pdk, parseDate, rs);
    CollectComplete(pdk, parseDate, rs);
    SortNewestFirstCorrect(found);
    var vs := SortNewestFirst(found);
    assert forall v :: v in vs <==> v in found by {
      forall v ensures v in vs <==> v in found {
        assert v in vs <==> v in multiset(vs);
        assert v in found <==> v in multiset(found);
      }
    }
    forall v | v in vs ensures pdk + "-" + v.name in TagsOf(rs) {
      var rel :| rel in rs && Contributes(pdk, rel) && v == VersionOf(pdk, parseDate, rel);
    }
  }

  /** The tags of the releases. */
  function TagsOf(rs: seq<Release>): set<string>
  {
    set rel | rel in rs :: rel.tagName
  }

  /** A failed discovery is a transport failure or the request limit of the
      paging, a malformed tag of a non-draft release, or — when no non-draft
      release of `pdk` was fetched — the not-found error naming `pdk` and the
      repository. */
  lemma AvailableVersionsFailures(list: Lister, parseDate: DateParser, repo: string, pdk: string, maxRequests: nat)
    requires AvailableVersions(list, parseDate, repo, pdk, maxRequests).Err?
    ensures var e := AvailableVersions(list, parseDate, repo, pdk, maxRequests).error;
      match Crawl(list, AlwaysFirstPage, 0, maxRequests)
      case Err(ce) => e == ce && (e.Transport? || e == RequestLimitReached)
      case Ok(rs) =>
        (e.MalformedTag? && exists rel :: rel in rs && !rel.draft && '-' !in rel.tagName && rel.tagName == e.tag)
        || (e == NoVersionsFound(pdk, repo) && forall rel :: rel in rs ==> !Contributes(pdk, rel))
  {
    var c := Crawl(list, AlwaysFirstPage, 0, maxRequests);
    if c.Ok? {
      var rs := c.value;
      CollectFails(pdk, parseDate, rs);
      if Collect(pdk, parseDate, rs).Ok? {
        var found := Collect(pdk, parseDate, rs).value;
        CollectComplete(pdk, parseDate, rs);
        SortNewestFirstCorrect(found);
        assert |found| == 0;
      }
    }
  }

  /** With well-formed tags and no non-draft release of `pdk`, discovery
      reports the not-found error naming `pdk` and the repository. */
  lemma NotFoundWhenNothingMatches(list: Lister, parseDate: DateParser, repo: string, pdk: string, maxRequests: nat)
    requires Crawl(list, AlwaysFirstPage, 0, maxRequests).Ok?
    requires forall rel :: rel in Crawl(list, AlwaysFirstPage, 0, maxRequests).value ==>
      (!rel.draft ==> '-' in rel.tagName) && !Contributes(pdk, rel)
    ensures AvailableVersions(list, parseDate, repo, pdk, maxRequests) == Err(NoVersionsFound(pdk, repo))
  {
    var rs := Crawl(list, AlwaysFirstPage, 0, maxRequests).value;
    CollectFails(pdk, parseDate, rs);
    var found := Collect(pdk, parseDate, rs).value;
    CollectSound(pdk, parseDate, rs);
    SortNewestFirstCorrect(found);
    assert forall j :: 0 <= j < |found| ==> found[j] in found;
  }

  // ---------------------------------------------------------------------
  // Assets of one release
  // ---------------------------------------------------------------------

  predicate IsArchive(name: string)
  {
    EndsWith(name, ArchiveSuffix)
  }

  /** `name[:-8]`: the archive name without its suffix. */
  function StripArchiveSuffix(name: string): (content: string)
    requires IsArchive(name)
    ensures content + ArchiveSuffix == name
  {
    assert name == name[..|name| - 8] + name[|name| - 8..];
    name[..|name| - 8]
  }

  /** Stripping the suffix off `content + ".tar.zst"` gives back `content`. */
  lemma StripArchiveSuffixRoundTrip(content: string)
    ensures IsArchive(content + ArchiveSuffix)
    ensures StripArchiveSuffix(content + ArchiveSuffix) == content
  {
    assert (content + ArchiveSuffix)[|content|..] == ArchiveSuffix;
  }

  function AssetOf(raw: RawAsset): (a: Asset)
    requires IsArchive(raw.name)
    ensures a.filename == raw.name && a.url == raw.browserDownloadUrl
    ensures a.content + ArchiveSuffix == a.filename
  {
    Asset(StripArchiveSuffix(raw.name), raw.name, raw.browserDownloadUrl)
  }

  /** The archives among `assets`, in feed order. */
  function ArchiveAssets(assets: seq<RawAsset>): (r: seq<Asset>)
    ensures |r| <= |assets|
    ensures forall a :: a in r ==> a.content + ArchiveSuffix == a.filename
  {
    if |assets| == 0 then []
    else
      var prev := ArchiveAssets(assets[..|assets| - 1]);
      var last := assets[|assets| - 1];
      if IsArchive(last.name) then prev + [AssetOf(last)] else prev
  }

  /** The result holds exactly the assets whose name ends in ".tar.zst",
      each with its own name and download URL. */
  lemma {:induction false} ArchiveAssetsExact(assets: seq<RawAsset>)
    ensures forall a :: a in ArchiveAssets(assets) ==>
      exists raw :: raw in assets && IsArchive(raw.name) && a == AssetOf(raw)
    ensures forall raw :: raw in assets && IsArchive(raw.name) ==> AssetOf(raw) in ArchiveAssets(assets)
  {
    if |assets| > 0 {
      var init, last := assets[..|assets| - 1], assets[|assets| - 1];
      ArchiveAssetsExact(init);
      assert assets == init + [last];
      assert forall raw :: raw in assets ==> raw in init || raw == last;
      assert forall raw :: raw in init ==> raw in assets;
    }
  }

  /** Feed order: the archives of two runs of assets are those of the first
      run followed by those of the second. */
  lemma {:induction false} ArchiveAssetsConcat(xs: seq<RawAsset>, ys: seq<RawAsset>)
    ensures ArchiveAssets(xs + ys) == ArchiveAssets(xs) + ArchiveAssets(ys)
    decreases |ys|
  {
    if |ys| == 0 {
      assert xs + ys == xs;
    } else {
      var init := ys[..|ys| - 1];
      ArchiveAssetsConcat(xs, init);
      assert (xs + ys)[..|xs + ys| - 1] == xs + init;
      assert (xs + ys)[|xs + ys| - 1] == ys[|ys| - 1];
    }
  }

  /** Of three assets `a.tar.zst`, `a.tar.zst.sha256` and `readme.md`, only
      `a.tar.zst` is an archive, with content `a`. */
  lemma AssetExample(u1: string, u2: string, u3: string)
    ensures ArchiveAssets([RawAsset("a.tar.zst", u1), RawAsset("a.tar.zst.sha256", u2), RawAsset("readme.md", u3)])
      == [Asset("a", "a.tar.zst", u1)]
  {
    var a1, a2, a3 := RawAsset("a.tar.zst", u1), RawAsset("a.tar.zst.sha256", u2), RawAsset("readme.md", u3);
    var all := [a1, a2, a3];
    assert IsArchive(a1.name) by { assert a1.name[1..] == ArchiveSuffix; }
    assert !IsArchive(a2.name) by { assert a2.name[|a2.name| - 1] != ArchiveSuffix[7]; }
    assert !IsArchive(a3.name) by { assert a3.name[|a3.name| - 1] != ArchiveSuffix[7]; }
    assert a1.name[..1] == "a";
    assert AssetOf(a1) == Asset("a", "a.tar.zst", u1);
    assert all[..2] == [a1, a2] && [a1, a2][..1] == [a1] && [a1][..0] == [];
    assert ArchiveAssets([a1]) == [AssetOf(a1)];
    assert ArchiveAssets([a1, a2]) == [AssetOf(a1)];
  }

  /** The release tag of a version. */
  function TagOf(version: Version): string
  {
    version.pdk + "-" + version.name
  }

  // ---------------------------------------------------------------------
  // The backend
  // ---------------------------------------------------------------------

  class GitHubReleasesDataSource {
    /** The `owner/repo` identifier the backend reads releases from. */
    const repo: string

    constructor (repoId: string)
      ensures repo == repoId
    {
      repo := repoId;
    }

    /** `get_available_versions`. At most `maxRequests` list requests are
        sent; the source sends as many as it takes. */
    method GetAvailableVersions(list: Lister, parseDate: DateParser, pdk: string, maxRequests: nat)
      returns (r: Result<seq<Version>, FeedError>)
      ensures r == AvailableVersions(list, parseDate, repo, pdk, maxRequests)
      ensures r.Ok? ==> 1 <= |r.value| && NewestFirst(r.value)
      ensures r.Ok? ==> forall v :: v in r.value ==> v.pdk == pdk && '-' !in v.name
    {
      var fetched := ListReleases(list, maxRequests);
      if fetched.Err? {
        return Err(fetched.error);
      }
      var found := VersionsOfFamily(parseDate, pdk, fetched.value);
      if found.Err? {
        return Err(found.error);
      }
      var versions := SortNewestFirst(found.value);
      if |versions| == 0 {
        return Err(NoVersionsFound(pdk, repo));
      }
      r := Ok(versions);
      AvailableVersionsSound(list, parseDate, repo, pdk, maxRequests);
    }

    /** The paging loop of `get_available_versions`: the release list, one
        page of `PerPage` after another while the last one was full. As in
        the source, every request asks for page 1. */
    method ListReleases(list: Lister, maxRequests: nat) returns (r: Result<seq<Release>, FeedError>)
      ensures r == Crawl(list, AlwaysFirstPage, 0, maxRequests)
    {
      // The first request and the repeated ones are one loop here: each
      // sends the same query, page 1 of `PerPage`.
      var page := 1;
      var releases: seq<Release> := [];
      var more := true;
      var sent := 0;
      GlueNothing(Crawl(list, AlwaysFirstPage, 0, maxRequests));
      while more
        invariant 0 <= sent <= maxRequests
        invariant sent == 0 ==> more && releases == []
        invariant Crawl(list, AlwaysFirstPage, 0, maxRequests) ==
          if more then Glue(releases, Crawl(list, AlwaysFirstPage, sent, maxRequests - sent))
          else Ok(releases)
        decreases maxRequests - sent, more
      {
        if sent == maxRequests {
          return Err(RequestLimitReached);
        }
        if sent > 0 {
          // `page` is counted but, as in the source, never sent.
          page := page + 1;
        }
        var last := list(PageQuery(1, PerPage));
        if last.Err? {
          return Err(Transport(last.error));
        }
        GlueGlue(releases, last.value, Crawl(list, AlwaysFirstPage, sent + 1, maxRequests - sent - 1));
        releases := releases + last.value;
        sent := sent + 1;
        more := |last.value| == PerPage;
      }
      return Ok(releases);
    }

    /** The loop of `get_available_versions` over the fetched releases,
        building the versions of `pdk` in feed order. */
    method VersionsOfFamily(parseDate: DateParser, pdk: string, releases: seq<Release>)
      returns (r: Result<seq<Version>, FeedError>)
      ensures r == Collect(pdk, parseDate, releases)
    {
      var versions: seq<Version> := [];
      var i := 0;
      while i < |releases|
        invariant 0 <= i <= |releases|
        invariant Collect(pdk, parseDate, releases[..i]) == Ok(versions)
      {
        var release := releases[i];
        CollectNext(pdk, parseDate, releases, i);
        if release.draft {
          i := i + 1;
          continue;
        }
        var split := RSplitLast(release.tagName, '-');
        if split.None? {
          CollectPrefixError(pdk, parseDate, releases, i + 1);
          return Err(MalformedTag(release.tagName));
        }
        var (family, hash) := split.value;
        if pdk != family {
          i := i + 1;
          continue;
        }
        var uploadDate := parseDate(release.publishedAt);
        var commitDate: Option<Timestamp> := None;
        var commitDateMatch := CommitStamp(release.body);
        if commitDateMatch.Some? {
          commitDate := Some(parseDate(commitDateMatch.value));
        }
        var remoteVersion := Version(hash, family, commitDate, uploadDate, release.prerelease);
        versions := versions + [remoteVersion];
        i := i + 1;
      }
      assert releases[..|releases|] == releases;
      return Ok(versions);
    }

    /** `get_downloads_for_version`: the archives attached to the release
        tagged `<pdk>-<name>`. */
    method GetDownloadsForVersion(lookup: TagLookup, version: Version)
      returns (r: Result<seq<Asset>, FeedError>)
      ensures lookup(TagOf(version)).Err? ==> r == Err(Transport(lookup(TagOf(version)).error))
      ensures lookup(TagOf(version)).Ok? ==> r == Ok(ArchiveAssets(lookup(TagOf(version)).value.assets))
    {
      var release := lookup(TagOf(version));
      if release.Err? {
        return Err(Transport(release.error));
      }
      var assets := release.value.assets;
      var zstFiles: seq<Asset> := [];
      var i := 0;
      while i < |assets|
        invariant 0 <= i <= |assets|
        invariant zstFiles == ArchiveAssets(assets[..i])
      {
        var asset := assets[i];
        assert assets[..i + 1][..i] == assets[..i];
        if EndsWith(asset.name, ArchiveSuffix) {
          var content := asset.name[..|asset.name| - 8];
          zstFiles := zstFiles + [Asset(content, asset.name, asset.browserDownloadUrl)];
        }
        i := i + 1;
      }
      assert assets[..|assets|] == assets;
      return Ok(zstFiles);
    }
  }
}
