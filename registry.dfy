/** The data-source registry: the table from a backend identifier to the
    class that builds it, and the default source chosen once, at module load,
    from a `"<class_id>:<argument>"` selector. The class-level fields of the
    source live here on one registry object. */
module Registry {
  import opened Wrappers
  import opened Text
  import opened GitHubSource

  /** The backend classes the table can name. */
  datatype SourceClass = GitHubReleasesClass

  const GitHubReleasesId: string := "github-releases"

  /** The selector used when the environment does not set one. */
  const DefaultSelector: string := "github-releases:efabless/volare"

  /** The status the process exits with on a bad selector. */
  const FatalExitStatus: int := -1

  /** Why a selector is refused. */
  datatype ConfigError =
    | MalformedSelector(selector: string)  // no `:` in it
    | UnknownSourceClass(id: string)       // the part before the first `:` is not in the table

  /** What choosing the default does to the process. */
  datatype Startup = Selected | Exit(status: int, reason: ConfigError)

  /** `os.getenv("CIEL_DATA_SOURCE", default)`. */
  function SelectorFromEnv(env: Option<string>): (r: string)
    ensures env.Some? ==> r == env.value
    ensures env.None? ==> r == DefaultSelector && ':' in r
  {
    match env
    case Some(s) => s
    case None => DefaultSelector
  }

  /** The table as the module fills it before choosing the default. */
  function StandardFactory(): (r: map<string, SourceClass>)
    ensures r.Keys == {GitHubReleasesId} && r[GitHubReleasesId] == GitHubReleasesClass
  {
    map[GitHubReleasesId := GitHubReleasesClass]
  }

  /** The class and the argument a selector names, or why it is refused. */
  function ResolveSelector(factory: map<string, SourceClass>, selector: string)
    : (r: Result<(SourceClass, string), ConfigError>)
    ensures r == Err(MalformedSelector(selector)) <==> ':' !in selector
    ensures r.Ok? ==> exists id :: id in factory && factory[id] == r.value.0 && id + ":" + r.value.1 == selector
  {
    match SplitFirst(selector, ':')
    case None => Err(MalformedSelector(selector))
    case Some((clsId, target)) =>
      if clsId in factory then Ok((factory[clsId], target)) else Err(UnknownSourceClass(clsId))
  }

  /** A selector is cut at its first `:` only: the identifier is the text
      before it and the argument is everything after it, `:` included. */
  lemma ResolveSelectorSplitsAtFirstColon(factory: map<string, SourceClass>, clsId: string, target: string)
    requires ':' !in clsId
    ensures ResolveSelector(factory, clsId + ":" + target) ==
      if clsId in factory then Ok((factory[clsId], target)) else Err(UnknownSourceClass(clsId))
  {
    SplitFirstOf(clsId, ':', target);
  }

  /** With no selector in the environment, the GitHub-releases class is
      chosen for "efabless/volare". */
  lemma DefaultSelectorExample()
    ensures ResolveSelector(StandardFactory(), SelectorFromEnv(None)) == Ok((GitHubReleasesClass, "efabless/volare"))
  {
    assert GitHubReleasesId + ":" + "efabless/volare" == DefaultSelector;
    ResolveSelectorSplitsAtFirstColon(StandardFactory(), GitHubReleasesId, "efabless/volare");
  }

  /** An unknown class identifier is refused. */
  lemma UnknownClassExample()
    ensures ResolveSelector(StandardFactory(), "bogus:x") == Err(UnknownSourceClass("bogus"))
  {
    assert "bogus" + ":" + "x" == "bogus:x";
    assert "bogus" != GitHubReleasesId by { assert "bogus"[0] != GitHubReleasesId[0]; }
    ResolveSelectorSplitsAtFirstColon(StandardFactory(), "bogus", "x");
  }

  /** A selector without `:` is refused. */
  lemma NoColonExample()
    ensures ResolveSelector(StandardFactory(), "no-colon-here") == Err(MalformedSelector("no-colon-here"))
  {
    var bad := "no-colon-here";
    assert forall j :: 0 <= j < |bad| ==> bad[j] != ':';
  }

  /** Further `:` belong to the argument. */
  lemma ExtraColonExample()
    ensures ResolveSelector(StandardFactory(), "github-releases:host:8080/repo") == Ok((GitHubReleasesClass, "host:8080/repo"))
  {
    assert GitHubReleasesId + ":" + "host:8080/repo" == "github-releases:host:8080/repo";
    ResolveSelectorSplitsAtFirstColon(StandardFactory(), GitHubReleasesId, "host:8080/repo");
  }

  class DataSourceRegistry {
    /** `DataSource.factory`. */
    var factory: map<string, SourceClass>
    /** `DataSource.default`, unset until a selector has been accepted. */
    var default: Option<GitHubReleasesDataSource>

    constructor ()
      ensures factory == map[] && default == None
    {
      factory := map[];
      default := None;
    }

    /** `DataSource.factory[id] = cls`. */
    method Register(id: string, cls: SourceClass)
      modifies this`factory
      ensures factory == old(factory)[id := cls]
      ensures id in factory && factory[id] == cls
    {
      factory := factory[id := cls];
    }

    /** `__set_data_source_default`: picks the class named before the first
        `:` of the selector and builds it from the rest; a selector without
        `:` or with an unknown class ends the process instead. */
    method SetDataSourceDefault(env: Option<string>) returns (outcome: Startup)
      modifies this`default
      ensures match ResolveSelector(factory, SelectorFromEnv(env))
        case Err(e) => outcome == Exit(FatalExitStatus, e) && default == old(default)
        case Ok((_, target)) => outcome == Selected && default.Some? && fresh(default.value)
                                && default.value.repo == target
    {
      var sourceId := SelectorFromEnv(env);
      var elements := SplitFirst(sourceId, ':');
      if elements.None? {
        return Exit(FatalExitStatus, MalformedSelector(sourceId));
      }
      var (clsId, target) := elements.value;
      if clsId !in factory {
        return Exit(FatalExitStatus, UnknownSourceClass(clsId));
      }
      var cls := factory[clsId];
      match cls
      case GitHubReleasesClass =>
        var source := new GitHubReleasesDataSource(target);
        default := Some(source);
      outcome := Selected;
    }
  }

  /** Loading the module: the GitHub-releases class is registered, then the
      default is chosen from the selector. */
  method LoadDataSources(env: Option<string>) returns (registry: DataSourceRegistry, outcome: Startup)
    ensures fresh(registry)
    ensures registry.factory == StandardFactory()
    ensures match ResolveSelector(StandardFactory(), SelectorFromEnv(env))
      case Err(e) => outcome == Exit(FatalExitStatus, e) && registry.default == None
      case Ok((_, target)) => outcome == Selected && registry.default.Some?
                              && registry.default.value.repo == target
  {
    registry := new DataSourceRegistry();
    registry.Register(GitHubReleasesId, GitHubReleasesClass);
    outcome := registry.SetDataSourceDefault(env);
  }
}
