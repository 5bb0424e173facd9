/** The values the release-feed layer reads from the feed and hands to its
    callers. */
module Records {
  import opened Wrappers

  /** A parsed ISO-8601 instant; comparison is comparison of the integers. */
  type Timestamp = int

  /** One entry of a release's `assets` list: `name` and
      `browser_download_url`. */
  datatype RawAsset = RawAsset(name: string, browserDownloadUrl: string)

  /** The fields of one release object of the feed that the layer reads. */
  datatype Release = Release(
    tagName: string,
    draft: bool,
    prerelease: bool,
    publishedAt: string,
    body: string,
    assets: seq<RawAsset>)

  /** A remote version of one PDK family. */
  datatype Version = Version(
    name: string,
    pdk: string,
    commitDate: Option<Timestamp>,
    uploadDate: Timestamp,
    prerelease: bool)

  /** One downloadable archive of a version. */
  datatype Asset = Asset(content: string, filename: string, url: string)

  /** The two failure kinds of the HTTP session: a non-2xx status, or no
      connection at all. */
  datatype HttpError = StatusError(status: int) | ConnectError

  /** What `get_available_versions` and `get_downloads_for_version` can fail
      with. `RequestLimitReached` stands for a pagination loop that would
      otherwise never stop. */
  datatype FeedError =
    | Transport(cause: HttpError)
    | MalformedTag(tag: string)
    | NoVersionsFound(pdk: string, repo: string)
    | RequestLimitReached

  /** The query parameters of one request to the release list. */
  datatype PageQuery = PageQuery(page: nat, perPage: nat)

  /** The page size every release-list request asks for. */
  const PerPage: nat := 100

  /** The HTTP session as seen by the release listing: a response (or a
      failure) for each query actually sent. */
  type Lister = PageQuery -> Result<seq<Release>, HttpError>

  /** The HTTP session as seen by the lookup of one release by its tag. */
  type TagLookup = string -> Result<Release, HttpError>

  /** `date_from_iso8601`: not part of this model, so any parse is allowed. */
  type DateParser = string -> Timestamp
}
