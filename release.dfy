/**
 * Locating a release on the GitHub REST API: parsing the repository name given to
 * NewGitHubUpdateChecker, building the request of getReleaseDetails and mapping its
 * status code. The HTTP exchange and the JSON decoding are a `send` parameter.
 */
module Release {
  import opened Wrappers
  import opened Errors
  import opened GoStrings
  import opened Assets

  const DefaultHost: string := "https://api.github.com"
  const AcceptHeader: string := "application/vnd.github.v3+json"
  const StatusOK: int := 200
  const StatusNotFound: int := 404

  datatype RepoName = RepoName(owner: string, repo: string)

  /** The checker of package github: the short repo name, the API host and the parsed name. */
  datatype Checker = Checker(repo: string, host: string, parsedRepo: RepoName)

  /** A release as the API describes it; the publication time is kept as its text. */
  datatype ReleaseInfo = ReleaseInfo(tagName: string, publishedAt: string, assets: seq<Asset>)

  datatype VersionInfo = VersionInfo(version: string, releasedAt: string)

  datatype Request = Request(verb: string, uri: string, headers: map<string, string>)

  /** A response: its status code and what decoding its body as JSON gives. */
  datatype Response = Response(statusCode: int, decoded: Result<ReleaseInfo, Error>)

  /**
   * The split both NewGitHubUpdateChecker functions make: "owner/repo", or
   * "host/owner/repo" whose first part is dropped. Any other number of parts panics,
   * modelled as the error InvalidRepo.
   */
  function ParseRepo(fqRepo: string): (r: Result<RepoName, Error>)
    ensures r.Err? <==> Count(fqRepo, '/') != 1 && Count(fqRepo, '/') != 2
    ensures r.Err? ==> r.error == InvalidRepo(fqRepo)
    ensures r.Ok? ==> '/' !in r.value.owner && '/' !in r.value.repo
    ensures r.Ok? ==> HasSuffix(fqRepo, r.value.owner + "/" + r.value.repo)
  {
    SplitPiecesFree(fqRepo, '/');
    JoinSplit(fqRepo, '/');
    var parts := Split(fqRepo, '/');
    if |parts| == 2 then
      assert fqRepo == parts[0] + "/" + parts[1];
      Ok(RepoName(parts[0], parts[1]))
    else if |parts| == 3 then
      assert Join(parts[1..][1..], '/') == parts[2];
      assert Join(parts[1..], '/') == parts[1] + "/" + parts[2];
      assert fqRepo == parts[0] + "/" + (parts[1] + "/" + parts[2]);
      Ok(RepoName(parts[1], parts[2]))
    else
      Err(InvalidRepo(fqRepo))
  }

  /** "owner/repo" gives that owner and repo. */
  lemma ParseRepoOwnerRepo(owner: string, repo: string)
    requires '/' !in owner && '/' !in repo
    ensures ParseRepo(owner + "/" + repo) == Ok(RepoName(owner, repo))
  {
    assert owner + "/" + repo == Join([owner, repo], '/');
    SplitJoin([owner, repo], '/');
  }

  /** "host/owner/repo" gives that owner and repo; the first part is ignored. */
  lemma ParseRepoHostOwnerRepo(host: string, owner: string, repo: string)
    requires '/' !in host && '/' !in owner && '/' !in repo
    ensures ParseRepo(host + "/" + owner + "/" + repo) == Ok(RepoName(owner, repo))
  {
    assert Join([owner, repo], '/') == owner + "/" + repo;
    assert [host, owner, repo][1..] == [owner, repo];
    assert host + "/" + owner + "/" + repo == Join([host, owner, repo], '/');
    SplitJoin([host, owner, repo], '/');
  }

  /** The empty name has one part and panics. */
  lemma ParseRepoEmpty()
    ensures ParseRepo("") == Err(InvalidRepo(""))
  {
  }

  /** NewGitHubUpdateChecker of package github. */
  function NewGitHubUpdateChecker(fqRepo: string): (r: Result<Checker, Error>)
    ensures r.Err? <==> ParseRepo(fqRepo).Err?
    ensures r.Err? ==> r.error == InvalidRepo(fqRepo)
    ensures r.Ok? ==> r.value.host == DefaultHost && r.value.parsedRepo == ParseRepo(fqRepo).value
    ensures r.Ok? ==> r.value.repo == r.value.parsedRepo.repo
  {
    match ParseRepo(fqRepo)
    case Err(e) => Err(e)
    case Ok(name) => Ok(Checker(name.repo, DefaultHost, name))
  }

  /** The URI of a release: the latest one for the name "latest", a tag otherwise. */
  function ReleaseURI(host: string, owner: string, repo: string, releaseName: string): (uri: string)
    ensures HasPrefix(uri, host + "/repos/" + owner + "/" + repo + "/releases/")
    ensures releaseName == "latest" ==> HasSuffix(uri, "/releases/latest")
    ensures releaseName != "latest" ==> HasSuffix(uri, "/tags/" + releaseName)
  {
    var base := host + "/repos/" + owner + "/" + repo + "/releases/";
    if releaseName == "latest" then base + "latest" else base + "tags/" + releaseName
  }

  /** Different release names never share a URI (so a tag named "latest" cannot be reached). */
  lemma ReleaseURIInjective(host: string, owner: string, repo: string, n1: string, n2: string)
    requires ReleaseURI(host, owner, repo, n1) == ReleaseURI(host, owner, repo, n2)
    ensures n1 == n2
  {
    var base := host + "/repos/" + owner + "/" + repo + "/releases/";
    var u := ReleaseURI(host, owner, repo, n1);
    LatestIsNoTag(base, n1);
    LatestIsNoTag(base, n2);
    if n1 != "latest" && n2 != "latest" {
      assert n1 == u[|base| + 5..] == n2;
    }
  }

  lemma LatestIsNoTag(base: string, name: string)
    ensures base + "latest" != base + "tags/" + name
  {
    assert (base + "latest")[|base|] == 'l';
    assert (base + "tags/" + name)[|base|] == 't';
  }

  /**
   * The headers of the release request: Accept always, Authorization only for a
   * non-empty token.
   */
  function RequestHeaders(token: string): (h: map<string, string>)
    ensures "Accept" in h && h["Accept"] == AcceptHeader
    ensures "Authorization" in h <==> token != ""
    ensures token != "" ==> h["Authorization"] == "Bearer " + token
    ensures h.Keys <= {"Accept", "Authorization"}
  {
    var h := map["Accept" := AcceptHeader];
    if token != "" then h["Authorization" := "Bearer " + token] else h
  }

  function ReleaseRequest(host: string, token: string, owner: string, repo: string, releaseName: string): Request {
    Request("GET", ReleaseURI(host, owner, repo, releaseName), RequestHeaders(token))
  }

  /**
   * getReleaseDetails. Package github never sends a token (it is `token == ""` here);
   * the root package sends its checker's. `urlError` is what url.Parse reports about the
   * URI, which http.NewRequest returns; `send` performs the request and decodes the body.
   */
  function GetReleaseDetails(host: string, token: string, owner: string, repo: string, releaseName: string,
                             urlError: string -> Option<Error>, send: Request -> Result<Response, Error>)
    : (r: Result<ReleaseInfo, Error>)
    ensures var bad := urlError(ReleaseURI(host, owner, repo, releaseName));
      bad.Some? ==> r == Err(Wrapped("new request", bad.value))
    ensures var bad := urlError(ReleaseURI(host, owner, repo, releaseName));
      var sent := send(ReleaseRequest(host, token, owner, repo, releaseName));
      && (r.Ok? <==> bad.None? && sent.Ok? && sent.value.statusCode == StatusOK && sent.value.decoded.Ok?)
      && (r.Ok? ==> r.value == sent.value.decoded.value)
      && (bad.None? && sent.Err? ==> r == Err(Wrapped("do request", sent.error)))
      && (bad.None? && sent.Ok? && sent.value.statusCode == StatusNotFound ==> r == Err(ReleaseNotFound))
      && (bad.None? && sent.Ok? && sent.value.statusCode != StatusOK && sent.value.statusCode != StatusNotFound ==>
            r == Err(UnexpectedStatusCode(sent.value.statusCode)))
      && (bad.None? && sent.Ok? && sent.value.statusCode == StatusOK && sent.value.decoded.Err? ==>
            r == Err(Wrapped("decode response", sent.value.decoded.error)))
  {
    match urlError(ReleaseURI(host, owner, repo, releaseName))
    case Some(e) => Err(Wrapped("new request", e))
    case None =>
      match send(ReleaseRequest(host, token, owner, repo, releaseName))
      case Err(e) => Err(Wrapped("do request", e))
      case Ok(resp) =>
        if resp.statusCode != StatusOK then
          if resp.statusCode == StatusNotFound then Err(ReleaseNotFound)
          else Err(UnexpectedStatusCode(resp.statusCode))
        else
          match resp.decoded
          case Err(e) => Err(Wrapped("decode response", e))
          case Ok(info) => Ok(info)
  }

  /** GetLatestVersion of package github: the tag and date of the release named "latest". */
  function GetLatestVersion(c: Checker, urlError: string -> Option<Error>, send: Request -> Result<Response, Error>)
    : (r: Result<VersionInfo, Error>)
    ensures var d := GetReleaseDetails(c.host, "", c.parsedRepo.owner, c.parsedRepo.repo, "latest", urlError, send);
      && (d.Err? ==> r == Err(Wrapped("get release details", d.error)))
      && (d.Ok? ==> r == Ok(VersionInfo(d.value.tagName, d.value.publishedAt)))
  {
    match GetReleaseDetails(c.host, "", c.parsedRepo.owner, c.parsedRepo.repo, "latest", urlError, send)
    case Err(e) => Err(Wrapped("get release details", e))
    case Ok(info) => Ok(VersionInfo(info.tagName, info.publishedAt))
  }
}
