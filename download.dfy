/**
 * DownloadVersion of package github: the order of the pipeline's steps and how each
 * failure ends it. Everything the steps learn from the network, the file system or the
 * process is a field of `Env`.
 */
module Download {
  import opened Wrappers
  import opened Errors
  import opened GoStrings
  import opened Assets
  import opened Manifest
  import opened Archive
  import opened Release
  import opened Search

  /** The outside world as the pipeline sees it. */
  datatype Env = Env(
    // http.DefaultClient.Do of a release request, with the JSON decoding of its body
    send: Request -> Result<Response, Error>,
    // what url.Parse, inside http.NewRequest, reports about a request URI
    urlError: string -> Option<Error>,
    // downloadFile up to the archive probe: temporary file, http.Get, io.Copy, os.Open
    fetch: string -> Result<Archive, Error>,
    // http.Get of a checksum manifest and the body the scanner reads
    get: string -> Result<string, Error>,
    // temporary file, io.Copy and os.Chmod of the chosen tar entry
    write: TarHeader -> Result<string, Error>,
    // runtime.GOOS, runtime.GOARCH and filepath.Base(os.Args[0])
    goos: string,
    goarch: string,
    executable: string)

  /** checksumFile as written: a stub that reports the empty digest for every file. */
  function ChecksumFile(path: string): (r: Result<string, Error>)
    ensures r.Ok? && r.value == ""
  {
    Ok("")
  }

  /** downloadFile: fetch the asset, then probe it for the program's executable. */
  function DownloadedFile(url: string, env: Env): (r: Result<string, Error>)
    ensures env.fetch(url).Err? ==> r == Err(env.fetch(url).error)
    ensures env.fetch(url).Ok? ==> r == ProbeArchive(env.fetch(url).value, env.executable, env.write)
  {
    match env.fetch(url)
    case Err(e) => Err(e)
    case Ok(archive) => ProbeArchive(archive, env.executable, env.write)
  }

  /** The same steps as statements, reading the tar entries with the scanning loop. */
  method DownloadFile(url: string, env: Env) returns (r: Result<string, Error>)
    ensures r == DownloadedFile(url, env)
  {
    var fetched := env.fetch(url);
    if fetched.Err? {
      return Err(fetched.error);
    }
    var archive := fetched.value;
    if !archive.isGzip {
      return Err(UnknownArchiveType);
    }
    r := FindProbableFileInGzip(archive.entries, env.executable, env.write);
  }

  /** The checksum step: with a checksum asset, the manifest's digest must equal the file's. */
  function Verified(assets: seq<Asset>, asset: Asset, path: string, env: Env): (r: Result<string, Error>)
    ensures Checksum(assets, asset.name).None? ==> r == Ok(path)
    ensures r.Ok? ==> r.value == path
    ensures r.Err? ==> r.error == ChecksumMismatch ||
                       (r.error.Wrapped? && r.error.context == "download and parse checksum")
  {
    match Checksum(assets, asset.name)
    case None => Ok(path)
    case Some(checksumAsset) =>
      var desired := DownloadedDigest(checksumAsset.url, asset.name, env.get);
      if desired.Err? then Err(Wrapped("download and parse checksum", desired.error))
      else if ChecksumFile(path).value != desired.value then Err(ChecksumMismatch)
      else Ok(path)
  }

  /**
   * What DownloadVersion of package github returns. Every failure but the digest
   * mismatch names the step that failed.
   */
  function DownloadOutcome(c: Checker, version: string, env: Env): (r: Result<string, Error>)
    ensures r.Err? ==> r.error == ChecksumMismatch ||
                       (r.error.Wrapped? && r.error.context in
                         {"get release details", "best asset", "download file", "download and parse checksum"})
  {
    match GetReleaseDetails(c.host, "", c.parsedRepo.owner, c.parsedRepo.repo, version, env.urlError, env.send)
    case Err(e) => Err(Wrapped("get release details", e))
    case Ok(info) =>
      match SelectAsset(info.assets, env.goos, env.goarch)
      case Err(e) => Err(Wrapped("best asset", e))
      case Ok(asset) =>
        match DownloadedFile(asset.url, env)
        case Err(e) => Err(Wrapped("download file", e))
        case Ok(path) => Verified(info.assets, asset, path, env)
  }

  /**
   * DownloadVersion of package github, step by step. `requireChecksumMatch` is accepted
   * and never read. The asset is chosen with bestAsset(assets, runtime.GOOS, runtime.GOARCH).
   */
  method DownloadVersion(c: Checker, version: string, requireChecksumMatch: bool, env: Env)
    returns (r: Result<string, Error>)
    ensures r == DownloadOutcome(c, version, env)
  {
    var releaseInfo := GetReleaseDetails(c.host, "", c.parsedRepo.owner, c.parsedRepo.repo, version, env.urlError, env.send);
    if releaseInfo.Err? {
      return Err(Wrapped("get release details", releaseInfo.error));
    }
    var assets := releaseInfo.value.assets;
    var best := BestAsset(assets, env.goos, env.goarch, env.goos);
    BestAssetOnHost(assets, env.goos, env.goarch);
    if best.Err? {
      return Err(Wrapped("best asset", best.error));
    }
    var asset := best.value;
    var archivePath := DownloadFile(asset.url, env);
    if archivePath.Err? {
      return Err(Wrapped("download file", archivePath.error));
    }
    var checksumAsset := Checksum(assets, asset.name);
    if checksumAsset.Some? {
      var desired := DownloadAndParseChecksum(checksumAsset.value.url, asset.name, env.get);
      if desired.Err? {
        return Err(Wrapped("download and parse checksum", desired.error));
      }
      // the stub never fails, so the "checksum file" error return of the source is dead code
      var actual := ChecksumFile(archivePath.value).value;
      if actual != desired.value {
        return Err(ChecksumMismatch);
      }
    }
    return Ok(archivePath.value);
  }

  /**
   * A successful download went through every step: the release was found, the chosen
   * asset is an uploaded one of its assets, it was a gzip archive holding the program,
   * and, when a checksum asset exists, its manifest lists the asset. Because checksumFile
   * is a stub, that listed digest is the empty string.
   */
  lemma DownloadVersionOk(c: Checker, version: string, env: Env)
    requires DownloadOutcome(c, version, env).Ok?
    ensures var d := GetReleaseDetails(c.host, "", c.parsedRepo.owner, c.parsedRepo.repo, version, env.urlError, env.send);
      && d.Ok? && SelectAsset(d.value.assets, env.goos, env.goarch).Ok?
      && var asset := SelectAsset(d.value.assets, env.goos, env.goarch).value;
         && asset in d.value.assets && IsUploaded(asset)
         && env.fetch(asset.url).Ok? && env.fetch(asset.url).value.isGzip
         && DownloadedFile(asset.url, env) == Ok(DownloadOutcome(c, version, env).value)
         && (Checksum(d.value.assets, asset.name).Some? ==>
               var body := env.get(Checksum(d.value.assets, asset.name).value.url);
               body.Ok? && ManifestDigest(body.value, asset.name) == Ok(""))
  {
  }

  /**
   * The converse: when the release is found, an asset is selected and extracted, and a
   * checksum asset, if there is one, lists the digest the stub reports, the download
   * succeeds with the extracted file.
   */
  lemma DownloadVersionSucceeds(c: Checker, version: string, env: Env, path: string)
    requires var d := GetReleaseDetails(c.host, "", c.parsedRepo.owner, c.parsedRepo.repo, version, env.urlError, env.send);
      && d.Ok? && SelectAsset(d.value.assets, env.goos, env.goarch).Ok?
      && var asset := SelectAsset(d.value.assets, env.goos, env.goarch).value;
         && DownloadedFile(asset.url, env) == Ok(path)
         && (Checksum(d.value.assets, asset.name).Some? ==>
               var body := env.get(Checksum(d.value.assets, asset.name).value.url);
               body.Ok? && ManifestDigest(body.value, asset.name) == Ok(""))
    ensures DownloadOutcome(c, version, env) == Ok(path)
  {
  }

  /** A failed release lookup ends the download with its error, wrapped "get release details". */
  lemma DetailsErrorPropagates(c: Checker, version: string, env: Env)
    requires GetReleaseDetails(c.host, "", c.parsedRepo.owner, c.parsedRepo.repo, version, env.urlError, env.send).Err?
    ensures DownloadOutcome(c, version, env) == Err(Wrapped("get release details",
              GetReleaseDetails(c.host, "", c.parsedRepo.owner, c.parsedRepo.repo, version, env.urlError, env.send).error))
  {
  }

  /** A failed selection ends the download with the selection's error, wrapped "best asset". */
  lemma SelectionErrorPropagates(c: Checker, version: string, env: Env)
    requires var d := GetReleaseDetails(c.host, "", c.parsedRepo.owner, c.parsedRepo.repo, version, env.urlError, env.send);
      d.Ok? && SelectAsset(d.value.assets, env.goos, env.goarch).Err?
    ensures var d := GetReleaseDetails(c.host, "", c.parsedRepo.owner, c.parsedRepo.repo, version, env.urlError, env.send);
      DownloadOutcome(c, version, env) == Err(Wrapped("best asset", SelectAsset(d.value.assets, env.goos, env.goarch).error))
  {
  }

  /** A failed download of the selected asset ends with its error, wrapped "download file". */
  lemma DownloadErrorPropagates(c: Checker, version: string, env: Env)
    requires var d := GetReleaseDetails(c.host, "", c.parsedRepo.owner, c.parsedRepo.repo, version, env.urlError, env.send);
      && d.Ok? && SelectAsset(d.value.assets, env.goos, env.goarch).Ok?
      && DownloadedFile(SelectAsset(d.value.assets, env.goos, env.goarch).value.url, env).Err?
    ensures var d := GetReleaseDetails(c.host, "", c.parsedRepo.owner, c.parsedRepo.repo, version, env.urlError, env.send);
      DownloadOutcome(c, version, env) ==
        Err(Wrapped("download file", DownloadedFile(SelectAsset(d.value.assets, env.goos, env.goarch).value.url, env).error))
  {
  }

  /**
   * With a checksum asset whose manifest cannot be fetched or names no line for the
   * asset, the download ends with that error, wrapped "download and parse checksum".
   */
  lemma ManifestErrorPropagates(c: Checker, version: string, env: Env)
    requires var d := GetReleaseDetails(c.host, "", c.parsedRepo.owner, c.parsedRepo.repo, version, env.urlError, env.send);
      && d.Ok? && SelectAsset(d.value.assets, env.goos, env.goarch).Ok?
      && var asset := SelectAsset(d.value.assets, env.goos, env.goarch).value;
         && DownloadedFile(asset.url, env).Ok?
         && Checksum(d.value.assets, asset.name).Some?
         && DownloadedDigest(Checksum(d.value.assets, asset.name).value.url, asset.name, env.get).Err?
    ensures var d := GetReleaseDetails(c.host, "", c.parsedRepo.owner, c.parsedRepo.repo, version, env.urlError, env.send);
      var asset := SelectAsset(d.value.assets, env.goos, env.goarch).value;
      DownloadOutcome(c, version, env) == Err(Wrapped("download and parse checksum",
        DownloadedDigest(Checksum(d.value.assets, asset.name).value.url, asset.name, env.get).error))
  {
  }

  /** An empty asset list fails in bestAsset, before anything is downloaded. */
  lemma DownloadVersionNoAssets(c: Checker, version: string, env: Env)
    requires var d := GetReleaseDetails(c.host, "", c.parsedRepo.owner, c.parsedRepo.repo, version, env.urlError, env.send);
      d.Ok? && d.value.assets == []
    ensures DownloadOutcome(c, version, env) == Err(Wrapped("best asset", NoAssets))
  {
  }

  /**
   * With the stub in place, a manifest that lists the asset with a non-empty digest
   * always ends in ErrChecksumMismatch, whatever the downloaded file holds.
   */
  lemma DownloadStubbedChecksumRejects(c: Checker, version: string, env: Env, path: string, digest: string)
    requires var d := GetReleaseDetails(c.host, "", c.parsedRepo.owner, c.parsedRepo.repo, version, env.urlError, env.send);
      && d.Ok? && SelectAsset(d.value.assets, env.goos, env.goarch).Ok?
      && var asset := SelectAsset(d.value.assets, env.goos, env.goarch).value;
         && DownloadedFile(asset.url, env) == Ok(path)
         && Checksum(d.value.assets, asset.name).Some?
         && var body := env.get(Checksum(d.value.assets, asset.name).value.url);
            body.Ok? && ManifestDigest(body.value, asset.name) == Ok(digest)
    requires digest != ""
    ensures DownloadOutcome(c, version, env) == Err(ChecksumMismatch)
  {
  }

  // The release of the end-to-end scenario: two builds and an aggregate manifest.
  const LinuxBuild: Asset := Asset("foo_linux_amd64.tar.gz", "application/gzip", "uploaded", 0, "linux-url")
  const DarwinBuild: Asset := Asset("foo_darwin_amd64.tar.gz", "application/gzip", "uploaded", 0, "darwin-url")
  const Checksums: Asset := Asset("checksums.txt", "text/plain", "uploaded", 0, "checksums-url")

  lemma ScenarioSelectsLinux()
    ensures SelectAsset([LinuxBuild, DarwinBuild, Checksums], "linux", "amd64") == Ok(LinuxBuild)
  {
    ScenarioLinuxName();
    FindFirstAt([LinuxBuild, DarwinBuild, Checksums], a => PlatformMatch(a, "linux", "amd64"), 0);
  }

  lemma ScenarioLinuxName()
    ensures PlatformMatch(LinuxBuild, "linux", "amd64")
  {
    ScenarioLinuxLower();
    ScenarioLinuxHasOS();
    ScenarioLinuxHasArch();
  }

  lemma ScenarioLinuxLower()
    ensures ToLower("foo_linux_amd64.tar.gz") == "foo_linux_amd64.tar.gz"
  {
    ToLowerOfLower("foo_linux_amd64.tar.gz");
  }

  lemma ScenarioLinuxHasOS()
    ensures Contains("foo_linux_amd64.tar.gz", "linux")
  {
    assert "foo_linux_amd64.tar.gz" == "foo_" + "linux" + "_amd64.tar.gz";
    ContainsInfix("foo_", "linux", "_amd64.tar.gz");
  }

  lemma ScenarioLinuxHasArch()
    ensures Contains("foo_linux_amd64.tar.gz", "amd64")
  {
    assert "foo_linux_amd64.tar.gz" == "foo_linux_" + "amd64" + ".tar.gz";
    ContainsInfix("foo_linux_", "amd64", ".tar.gz");
  }

  lemma ScenarioFindsManifest()
    ensures Checksum([LinuxBuild, DarwinBuild, Checksums], LinuxBuild.name) == Some(Checksums)
  {
    ScenarioNoPerAssetFile();
    ScenarioLinuxIsNoManifest();
    ScenarioDarwinIsNoManifest();
    ScenarioManifestName();
    ManifestThird(LinuxBuild, DarwinBuild, Checksums, LinuxBuild.name);
  }

  lemma ManifestThird(a: Asset, b: Asset, m: Asset, assetName: string)
    requires !PerAssetChecksum(a, assetName) && !PerAssetChecksum(b, assetName)
    requires !PerAssetChecksum(m, assetName)
    requires !AggregateChecksum(a) && !AggregateChecksum(b) && AggregateChecksum(m)
    ensures Checksum([a, b, m], assetName) == Some(m)
  {
    ChecksumFallsBackToManifest([a, b, m], assetName, 2);
  }

  lemma ScenarioNoPerAssetFile()
    ensures !PerAssetChecksum(LinuxBuild, LinuxBuild.name)
    ensures !PerAssetChecksum(DarwinBuild, LinuxBuild.name)
    ensures !PerAssetChecksum(Checksums, LinuxBuild.name)
  {
    assert LinuxBuild.name[|LinuxBuild.name| - 1] != ".sha256"[6];
    assert DarwinBuild.name[4] != LinuxBuild.name[4];
  }

  lemma ScenarioLinuxIsNoManifest()
    ensures !AggregateChecksum(LinuxBuild)
  {
    NotContainsMissingChar("foo_linux_amd64.tar.gz", "checksums", 'c');
  }

  lemma ScenarioDarwinIsNoManifest()
    ensures !AggregateChecksum(DarwinBuild)
  {
    NotContainsMissingChar("foo_darwin_amd64.tar.gz", "checksums", 'c');
  }

  lemma ScenarioManifestName()
    ensures AggregateChecksum(Checksums)
  {
    assert Checksums.name == "" + "checksums" + ".txt";
    ContainsInfix("", "checksums", ".txt");
  }

  /**
   * The end-to-end scenario: on linux/amd64 the linux build is downloaded and
   * checksums.txt consulted; a manifest without a line for the build fails with
   * ErrUnsupportedChecksumFormat, one with a real digest for it fails with
   * ErrChecksumMismatch (the stub again), and one listing the empty digest lets the
   * extracted file through.
   */
  lemma DownloadScenario(c: Checker, version: string, env: Env, tag: string, date: string, path: string)
    requires GetReleaseDetails(c.host, "", c.parsedRepo.owner, c.parsedRepo.repo, version, env.urlError, env.send)
             == Ok(ReleaseInfo(tag, date, [LinuxBuild, DarwinBuild, Checksums]))
    requires env.goos == "linux" && env.goarch == "amd64"
    requires DownloadedFile(LinuxBuild.url, env) == Ok(path)
    requires env.get(Checksums.url).Ok?
    ensures ManifestDigest(env.get(Checksums.url).value, LinuxBuild.name).Err? ==>
              DownloadOutcome(c, version, env) == Err(Wrapped("download and parse checksum", UnsupportedChecksumFormat))
    ensures ManifestDigest(env.get(Checksums.url).value, LinuxBuild.name).Ok? &&
            ManifestDigest(env.get(Checksums.url).value, LinuxBuild.name).value != "" ==>
              DownloadOutcome(c, version, env) == Err(ChecksumMismatch)
    ensures ManifestDigest(env.get(Checksums.url).value, LinuxBuild.name) == Ok("") ==>
              DownloadOutcome(c, version, env) == Ok(path)
  {
    ScenarioSelectsLinux();
    ScenarioFindsManifest();
  }
}
