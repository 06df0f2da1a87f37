/**
 * Release assets and the two searches over them in package github:
 * bestAsset (which build to download) and checksum (which asset holds its digest).
 */
module Assets {
  import opened Wrappers
  import opened Errors
  import opened Search
  import opened GoStrings

  /** One entry of a release's asset list, as GitHub's JSON describes it. */
  datatype Asset = Asset(name: string, contentType: string, state: string, size: int, url: string)

  const Uploaded: string := "uploaded"

  predicate IsUploaded(a: Asset) {
    a.state == Uploaded
  }

  /** Tier 1 of bestAsset: an uploaded asset whose lower-cased name mentions the OS and the arch. */
  predicate PlatformMatch(a: Asset, goos: string, goarch: string) {
    IsUploaded(a) && Contains(ToLower(a.name), goos) && Contains(ToLower(a.name), goarch)
  }

  /** Tier 2 of bestAsset: an uploaded asset whose lower-cased name mentions the OS and "all". */
  predicate AnyArchMatch(a: Asset, goos: string) {
    IsUploaded(a) && Contains(ToLower(a.name), goos) && Contains(ToLower(a.name), "all")
  }

  /**
   * bestAsset as written: tier 1 tests the `goos` argument, but tier 2 tests the OS the
   * program runs on (`hostOS`, runtime.GOOS in the source), not the argument.
   */
  function BestAsset(assets: seq<Asset>, goos: string, goarch: string, hostOS: string): (r: Result<Asset, Error>)
  {
    if |assets| == 0 then Err(NoAssets)
    else
      match FindFirst(assets, a => PlatformMatch(a, goos, goarch))
      case Some(i) => Ok(assets[i])
      case None =>
        match FindFirst(assets, a => AnyArchMatch(a, hostOS))
        case Some(j) => Ok(assets[j])
        case None => Err(NoMatchingArchitectures)
  }

  /** The asset selection as intended: both tiers test the target OS. */
  function SelectAsset(assets: seq<Asset>, goos: string, goarch: string): (r: Result<Asset, Error>)
    ensures |assets| == 0 <==> r == Err(NoAssets)
    ensures r.Err? ==> r.error in {NoAssets, NoMatchingArchitectures}
    ensures r.Ok? ==> r.value in assets && IsUploaded(r.value) && Contains(ToLower(r.value.name), goos)
    ensures r.Ok? ==> PlatformMatch(r.value, goos, goarch) || AnyArchMatch(r.value, goos)
  {
    if |assets| == 0 then Err(NoAssets)
    else
      match FindFirst(assets, a => PlatformMatch(a, goos, goarch))
      case Some(i) => Ok(assets[i])
      case None =>
        match FindFirst(assets, a => AnyArchMatch(a, goos))
        case Some(j) => Ok(assets[j])
        case None => Err(NoMatchingArchitectures)
  }

  /** Where the OS under test is the host OS, as at the only call site, the two agree. */
  lemma BestAssetOnHost(assets: seq<Asset>, goos: string, goarch: string)
    ensures BestAsset(assets, goos, goarch, goos) == SelectAsset(assets, goos, goarch)
  {
  }

  /** The counterexample: an "all" build for the target OS is missed when the host OS differs. */
  lemma BestAssetIgnoresTargetInTier2()
    ensures BestAsset([Asset("foo_linux_all", "", "uploaded", 0, "")], "linux", "amd64", "darwin")
         == Err(NoMatchingArchitectures)
    ensures SelectAsset([Asset("foo_linux_all", "", "uploaded", 0, "")], "linux", "amd64")
         == Ok(Asset("foo_linux_all", "", "uploaded", 0, ""))
  {
    var a := Asset("foo_linux_all", "", "uploaded", 0, "");
    LinuxAllName();
    assert !PlatformMatch(a, "linux", "amd64");
    assert AnyArchMatch(a, "linux");
    assert !AnyArchMatch(a, "darwin");
  }

  lemma LinuxAllName()
    ensures ToLower("foo_linux_all") == "foo_linux_all"
    ensures Contains("foo_linux_all", "linux") && Contains("foo_linux_all", "all")
    ensures !Contains("foo_linux_all", "amd64") && !Contains("foo_linux_all", "darwin")
  {
    ToLowerOfLower("foo_linux_all");
    LinuxAllContains();
    LinuxAllLacks();
  }

  lemma LinuxAllContains()
    ensures Contains("foo_linux_all", "linux") && Contains("foo_linux_all", "all")
  {
    assert "foo_linux_all" == "foo_" + "linux" + "_all";
    ContainsInfix("foo_", "linux", "_all");
    assert "foo_linux_all" == "foo_linux_" + "all" + "";
    ContainsInfix("foo_linux_", "all", "");
  }

  lemma LinuxAllLacks()
    ensures !Contains("foo_linux_all", "amd64") && !Contains("foo_linux_all", "darwin")
  {
    LinuxAllLacksAmd64();
    LinuxAllLacksDarwin();
  }

  lemma LinuxAllLacksAmd64()
    ensures !Contains("foo_linux_all", "amd64")
  {
    NotContainsMissingChar("foo_linux_all", "amd64", 'm');
  }

  lemma LinuxAllLacksDarwin()
    ensures !Contains("foo_linux_all", "darwin")
  {
    NotContainsMissingChar("foo_linux_all", "darwin", 'd');
  }

  /** An empty list fails with ErrNoAssets whatever the OS and arch. */
  lemma BestAssetEmpty(goos: string, goarch: string, hostOS: string)
    ensures BestAsset([], goos, goarch, hostOS) == Err(NoAssets)
  {
  }

  /** A successful selection is an uploaded element of the list. */
  lemma BestAssetUploaded(assets: seq<Asset>, goos: string, goarch: string, hostOS: string)
    requires BestAsset(assets, goos, goarch, hostOS).Ok?
    ensures BestAsset(assets, goos, goarch, hostOS).value in assets
    ensures IsUploaded(BestAsset(assets, goos, goarch, hostOS).value)
  {
  }

  /**
   * Tier 1 wins: the result is the first platform match in list order, whatever
   * follows it; tier 2 is consulted only when there is no platform match at all.
   */
  lemma BestAssetTier1(assets: seq<Asset>, goos: string, goarch: string, hostOS: string, i: nat)
    requires i < |assets| && PlatformMatch(assets[i], goos, goarch)
    requires forall j :: 0 <= j < i ==> !PlatformMatch(assets[j], goos, goarch)
    ensures BestAsset(assets, goos, goarch, hostOS) == Ok(assets[i])
  {
    FindFirstAt(assets, a => PlatformMatch(a, goos, goarch), i);
  }

  /** Without a platform match, the first "all" build for the host OS is chosen. */
  lemma BestAssetTier2(assets: seq<Asset>, goos: string, goarch: string, hostOS: string, i: nat)
    requires forall j :: 0 <= j < |assets| ==> !PlatformMatch(assets[j], goos, goarch)
    requires i < |assets| && AnyArchMatch(assets[i], hostOS)
    requires forall j :: 0 <= j < i ==> !AnyArchMatch(assets[j], hostOS)
    ensures BestAsset(assets, goos, goarch, hostOS) == Ok(assets[i])
  {
    FindFirstAt(assets, a => AnyArchMatch(a, hostOS), i);
  }

  /**
   * A non-empty list with neither kind of match fails with ErrNoMatchingArchitectures;
   * in particular a list with no uploaded asset does.
   */
  lemma BestAssetNoMatch(assets: seq<Asset>, goos: string, goarch: string, hostOS: string)
    requires |assets| > 0
    requires forall j :: 0 <= j < |assets| ==> !PlatformMatch(assets[j], goos, goarch) && !AnyArchMatch(assets[j], hostOS)
    ensures BestAsset(assets, goos, goarch, hostOS) == Err(NoMatchingArchitectures)
  {
  }

  /**
   * checksum: the first uploaded asset named `<assetName>...sha256`, otherwise the first
   * uploaded `...checksums...txt`, otherwise nothing. It never fails.
   */
  predicate PerAssetChecksum(a: Asset, assetName: string) {
    IsUploaded(a) && HasPrefix(a.name, assetName) && HasSuffix(a.name, ".sha256")
  }

  predicate AggregateChecksum(a: Asset) {
    IsUploaded(a) && Contains(a.name, "checksums") && HasSuffix(a.name, ".txt")
  }

  function Checksum(assets: seq<Asset>, assetName: string): (r: Option<Asset>)
    ensures r.Some? ==> r.value in assets && IsUploaded(r.value)
    ensures r.Some? ==> PerAssetChecksum(r.value, assetName) || AggregateChecksum(r.value)
    ensures r.None? <==> forall j :: 0 <= j < |assets| ==>
                           !PerAssetChecksum(assets[j], assetName) && !AggregateChecksum(assets[j])
  {
    match FindFirst(assets, a => PerAssetChecksum(a, assetName))
    case Some(i) => Some(assets[i])
    case None =>
      match FindFirst(assets, a => AggregateChecksum(a))
      case Some(j) => Some(assets[j])
      case None => None
  }

  /** A per-asset `.sha256` file is preferred over any aggregate manifest, wherever it is listed. */
  lemma ChecksumPrefersPerAsset(assets: seq<Asset>, assetName: string, i: nat)
    requires i < |assets| && PerAssetChecksum(assets[i], assetName)
    requires forall j :: 0 <= j < i ==> !PerAssetChecksum(assets[j], assetName)
    ensures Checksum(assets, assetName) == Some(assets[i])
  {
    FindFirstAt(assets, a => PerAssetChecksum(a, assetName), i);
  }

  /** Without a per-asset file, the first aggregate manifest is chosen. */
  lemma ChecksumFallsBackToManifest(assets: seq<Asset>, assetName: string, i: nat)
    requires forall j :: 0 <= j < |assets| ==> !PerAssetChecksum(assets[j], assetName)
    requires i < |assets| && AggregateChecksum(assets[i])
    requires forall j :: 0 <= j < i ==> !AggregateChecksum(assets[j])
    ensures Checksum(assets, assetName) == Some(assets[i])
  {
    FindFirstAt(assets, a => AggregateChecksum(a), i);
  }
}
