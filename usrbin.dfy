/**
 * The GitHub update checker of package usrbin, the older copy of package github's:
 * it sends the GITHUB_TOKEN it was built with, picks the asset with two loops of its
 * own, has no checksum step and names its errors differently.
 */
module Usrbin {
  import opened Wrappers
  import opened Errors
  import opened Search
  import opened GoStrings
  import opened Assets
  import opened Archive
  import Release
  import Download

  /** GitHubUpdateChecker of package usrbin: package github's fields plus the API token. */
  datatype Checker = Checker(repo: string, host: string, apiToken: string, parsedRepo: Release.RepoName)

  /**
   * NewGitHubUpdateChecker: the repository is parsed as in package github; the token is
   * the value of the GITHUB_TOKEN environment variable, given here as `githubToken`.
   * The panic on a malformed name is the error result.
   */
  function NewGitHubUpdateChecker(fqRepo: string, githubToken: string): (r: Result<Checker, Error>)
    ensures r.Err? <==> Count(fqRepo, '/') != 1 && Count(fqRepo, '/') != 2
    ensures r.Err? ==> r.error == InvalidRepo(fqRepo)
    ensures r.Ok? ==> r.value.host == Release.DefaultHost && r.value.apiToken == githubToken
    ensures r.Ok? ==> r.value.repo == r.value.parsedRepo.repo
    ensures r.Ok? ==> HasSuffix(fqRepo, r.value.parsedRepo.owner + "/" + r.value.parsedRepo.repo)
  {
    match Release.ParseRepo(fqRepo)
    case Err(e) => Err(e)
    case Ok(name) => Ok(Checker(name.repo, Release.DefaultHost, githubToken, name))
  }

  /** Both constructors accept the same names and read the same owner and repository from them. */
  lemma CheckersParseAlike(fqRepo: string, githubToken: string)
    ensures NewGitHubUpdateChecker(fqRepo, githubToken).Ok? <==> Release.NewGitHubUpdateChecker(fqRepo).Ok?
    ensures NewGitHubUpdateChecker(fqRepo, githubToken).Ok? ==>
              var c := NewGitHubUpdateChecker(fqRepo, githubToken).value;
              var p := Release.NewGitHubUpdateChecker(fqRepo).value;
              c.repo == p.repo && c.host == p.host && c.parsedRepo == p.parsedRepo
  {
  }

  /**
   * findProbableFileInWhatMightBeAnArchive of package usrbin: the same probe as package
   * github's, with its own error for a file that is not gzip.
   */
  function ProbeFile(a: Archive, exe: string, write: TarHeader -> Result<string, Error>): (r: Result<string, Error>)
    ensures !a.isGzip ==> r == Err(UndeterminedArchiveType)
    ensures a.isGzip ==> r == ScanOutcome(a.entries, exe, write)
  {
    if !a.isGzip then Err(UndeterminedArchiveType) else ScanOutcome(a.entries, exe, write)
  }

  /** The two probes differ only in the error for a file that is not gzip. */
  lemma ProbesAgree(a: Archive, exe: string, write: TarHeader -> Result<string, Error>)
    ensures a.isGzip ==> ProbeFile(a, exe, write) == ProbeArchive(a, exe, write)
    ensures !a.isGzip ==> ProbeFile(a, exe, write) == Err(UndeterminedArchiveType) &&
                          ProbeArchive(a, exe, write) == Err(UnknownArchiveType)
  {
  }

  /** downloadFile of package usrbin: fetch the asset, then probe it for the program's executable. */
  function DownloadedFile(url: string, env: Download.Env): (r: Result<string, Error>)
    ensures env.fetch(url).Err? ==> r == Err(env.fetch(url).error)
    ensures env.fetch(url).Ok? ==> r == ProbeFile(env.fetch(url).value, env.executable, env.write)
  {
    match env.fetch(url)
    case Err(e) => Err(e)
    case Ok(archive) => ProbeFile(archive, env.executable, env.write)
  }

  /** The same steps as statements, reading the tar entries with the scanning loop. */
  method DownloadFile(url: string, env: Download.Env) returns (r: Result<string, Error>)
    ensures r == DownloadedFile(url, env)
  {
    var fetched := env.fetch(url);
    if fetched.Err? {
      return Err(fetched.error);
    }
    var archive := fetched.value;
    if !archive.isGzip {
      return Err(UndeterminedArchiveType);
    }
    r := FindProbableFileInGzip(archive.entries, env.executable, env.write);
  }

  /**
   * What DownloadVersion of package usrbin returns: the release is fetched with the
   * checker's token, an empty asset list and a list without a matching build have errors
   * of their own, and the downloaded file is returned without a checksum step.
   */
  function DownloadOutcome(c: Checker, version: string, env: Download.Env): (r: Result<string, Error>)
    ensures var d := Release.GetReleaseDetails(c.host, c.apiToken, c.parsedRepo.owner, c.parsedRepo.repo,
                                               version, env.urlError, env.send);
      && (d.Err? ==> r == Err(Wrapped("get release details", d.error)))
      && (d.Ok? && |d.value.assets| == 0 ==> r == Err(NoAssetsFound))
      && (d.Ok? && |d.value.assets| > 0 &&
          (forall j :: 0 <= j < |d.value.assets| ==>
             !PlatformMatch(d.value.assets[j], env.goos, env.goarch) && !AnyArchMatch(d.value.assets[j], env.goos))
          ==> r == Err(NoFileMatchingArchitecture))
      && (d.Ok? && SelectAsset(d.value.assets, env.goos, env.goarch).Ok? ==>
            r == DownloadedFile(SelectAsset(d.value.assets, env.goos, env.goarch).value.url, env))
      && (r.Ok? ==> d.Ok? && SelectAsset(d.value.assets, env.goos, env.goarch).Ok?
                    && r == DownloadedFile(SelectAsset(d.value.assets, env.goos, env.goarch).value.url, env))
  {
    match Release.GetReleaseDetails(c.host, c.apiToken, c.parsedRepo.owner, c.parsedRepo.repo, version, env.urlError, env.send)
    case Err(e) => Err(Wrapped("get release details", e))
    case Ok(info) =>
      if |info.assets| == 0 then Err(NoAssetsFound)
      else
        match SelectAsset(info.assets, env.goos, env.goarch)
        case Ok(asset) => DownloadedFile(asset.url, env)
        case Err(_) => Err(NoFileMatchingArchitecture)
  }

  /**
   * DownloadVersion of package usrbin: the first loop takes the first uploaded asset
   * naming the OS and the arch, the second the first naming the OS and "all".
   */
  method DownloadVersion(c: Checker, version: string, env: Download.Env) returns (r: Result<string, Error>)
    ensures r == DownloadOutcome(c, version, env)
  {
    var releaseInfo := Release.GetReleaseDetails(c.host, c.apiToken, c.parsedRepo.owner, c.parsedRepo.repo,
                                                 version, env.urlError, env.send);
    if releaseInfo.Err? {
      return Err(Wrapped("get release details", releaseInfo.error));
    }
    var assets := releaseInfo.value.assets;
    if |assets| == 0 {
      return Err(NoAssetsFound);
    }

    for i := 0 to |assets|
      invariant forall j :: 0 <= j < i ==> !PlatformMatch(assets[j], env.goos, env.goarch)
    {
      var asset := assets[i];
      if asset.state != Uploaded {
        continue;
      }
      var lowercaseName := ToLower(asset.name);
      if Contains(lowercaseName, env.goos) {
        if Contains(lowercaseName, env.goarch) {
          FindFirstAt(assets, a => PlatformMatch(a, env.goos, env.goarch), i);
          r := DownloadFile(asset.url, env);
          return;
        }
      }
    }

    for i := 0 to |assets|
      invariant forall j :: 0 <= j < i ==> !AnyArchMatch(assets[j], env.goos)
    {
      var asset := assets[i];
      if asset.state != Uploaded {
        continue;
      }
      var lowercaseName := ToLower(asset.name);
      if Contains(lowercaseName, env.goos) {
        if Contains(lowercaseName, "all") {
          FindFirstAt(assets, a => AnyArchMatch(a, env.goos), i);
          r := DownloadFile(asset.url, env);
          return;
        }
      }
    }

    return Err(NoFileMatchingArchitecture);
  }

  /**
   * A build package usrbin downloads is an uploaded asset of the release that names the
   * OS, and names the arch or "all".
   */
  lemma DownloadVersionOk(c: Checker, version: string, env: Download.Env)
    requires DownloadOutcome(c, version, env).Ok?
    ensures var d := Release.GetReleaseDetails(c.host, c.apiToken, c.parsedRepo.owner, c.parsedRepo.repo,
                                               version, env.urlError, env.send);
      && d.Ok? && SelectAsset(d.value.assets, env.goos, env.goarch).Ok?
      && var asset := SelectAsset(d.value.assets, env.goos, env.goarch).value;
         && asset in d.value.assets && IsUploaded(asset) && Contains(ToLower(asset.name), env.goos)
         && (PlatformMatch(asset, env.goos, env.goarch) || AnyArchMatch(asset, env.goos))
         && env.fetch(asset.url).Ok? && env.fetch(asset.url).value.isGzip
         && ScanOutcome(env.fetch(asset.url).value.entries, env.executable, env.write)
              == DownloadOutcome(c, version, env)
  {
  }

  /**
   * Every file package github's DownloadVersion returns, package usrbin's returns too when
   * it asks without a token: the same release, the same asset, the same extracted file.
   * The converse fails where package github rejects the file on its checksum.
   */
  lemma PackageDownloadIsRootDownload(pc: Release.Checker, c: Checker, version: string, env: Download.Env)
    requires c.host == pc.host && c.parsedRepo == pc.parsedRepo && c.apiToken == ""
    requires Download.DownloadOutcome(pc, version, env).Ok?
    ensures DownloadOutcome(c, version, env) == Download.DownloadOutcome(pc, version, env)
  {
    Download.DownloadVersionOk(pc, version, env);
  }

  /** GetLatestVersion of package usrbin: the tag and date of the latest release, asked with the token. */
  function GetLatestVersion(c: Checker, urlError: string -> Option<Error>,
                            send: Release.Request -> Result<Release.Response, Error>)
    : (r: Result<Release.VersionInfo, Error>)
    ensures var d := Release.GetReleaseDetails(c.host, c.apiToken, c.parsedRepo.owner, c.parsedRepo.repo,
                                               "latest", urlError, send);
      && (d.Err? ==> r == Err(Wrapped("get release details", d.error)))
      && (d.Ok? ==> r == Ok(Release.VersionInfo(d.value.tagName, d.value.publishedAt)))
  {
    match Release.GetReleaseDetails(c.host, c.apiToken, c.parsedRepo.owner, c.parsedRepo.repo, "latest", urlError, send)
    case Err(e) => Err(Wrapped("get release details", e))
    case Ok(info) => Ok(Release.VersionInfo(info.tagName, info.publishedAt))
  }

  /** With a token, every request of the checker carries it as a bearer credential. */
  lemma LatestRequestCarriesToken(c: Checker)
    requires c.apiToken != ""
    ensures var req := Release.ReleaseRequest(c.host, c.apiToken, c.parsedRepo.owner, c.parsedRepo.repo, "latest");
      && req.headers["Authorization"] == "Bearer " + c.apiToken
      && req.headers["Accept"] == Release.AcceptHeader
  {
  }
}
