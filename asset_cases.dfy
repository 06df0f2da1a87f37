/**
 * The release layouts of package github's table tests for bestAsset and checksum,
 * with what the model selects from each.
 */
module AssetCases {
  import opened Wrappers
  import opened GoStrings
  import opened Assets

  const DarwinAmd64: Asset := Asset("foo_darwin_amd64", "", "uploaded", 0, "https://usrbin.app/foo_darwin_amd64")
  const LinuxArm64: Asset := Asset("foo_linux_arm64", "", "uploaded", 0, "https://usrbin.app/foo_linux_arm64")
  const LinuxAmd64: Asset := Asset("foo_linux_amd64", "", "uploaded", 0, "https://usrbin.app/foo_linux_amd64")
  const ChecksumsTxt: Asset := Asset("checksums.txt", "", "uploaded", 0, "https://usrbin.app/checksums.txt")

  /** "multiple assets, one matching": the linux/amd64 build, third in the list, is chosen. */
  lemma MultipleAssetsOneMatching(hostOS: string)
    ensures BestAsset([DarwinAmd64, LinuxArm64, LinuxAmd64, ChecksumsTxt], "linux", "amd64", hostOS) == Ok(LinuxAmd64)
  {
    DarwinIsNotLinux();
    Arm64IsNotAmd64();
    LinuxAmd64Matches();
    ThirdMatches([DarwinAmd64, LinuxArm64, LinuxAmd64, ChecksumsTxt], "linux", "amd64", hostOS);
  }

  lemma ThirdMatches(assets: seq<Asset>, goos: string, goarch: string, hostOS: string)
    requires |assets| > 2
    requires !PlatformMatch(assets[0], goos, goarch) && !PlatformMatch(assets[1], goos, goarch)
    requires PlatformMatch(assets[2], goos, goarch)
    ensures BestAsset(assets, goos, goarch, hostOS) == Ok(assets[2])
  {
    BestAssetTier1(assets, goos, goarch, hostOS, 2);
  }

  lemma DarwinIsNotLinux()
    ensures !PlatformMatch(DarwinAmd64, "linux", "amd64")
  {
    ToLowerOfLower("foo_darwin_amd64");
    NotContainsMissingChar("foo_darwin_amd64", "linux", 'l');
  }

  lemma Arm64IsNotAmd64()
    ensures !PlatformMatch(LinuxArm64, "linux", "amd64")
  {
    ToLowerOfLower("foo_linux_arm64");
    NotContainsMissingChar("foo_linux_arm64", "amd64", 'd');
  }

  lemma LinuxAmd64Matches()
    ensures PlatformMatch(LinuxAmd64, "linux", "amd64")
  {
    ToLowerOfLower("foo_linux_amd64");
    assert "foo_linux_amd64" == "foo_" + "linux" + "_amd64";
    ContainsInfix("foo_", "linux", "_amd64");
    assert "foo_linux_amd64" == "foo_linux_" + "amd64" + "";
    ContainsInfix("foo_linux_", "amd64", "");
  }

  const Sha256File: Asset := Asset("foo_linux_amd64.sha256", "", "uploaded", 0, "")
  const PlainBuild: Asset := Asset("foo_linux_amd64", "", "uploaded", 0, "")

  /** "with .sha256 extension": the build's own `.sha256` file is its checksum asset. */
  lemma WithSha256Extension()
    ensures Checksum([Sha256File, PlainBuild], "foo_linux_amd64") == Some(Sha256File)
  {
    Sha256FileIsPerAsset();
    ChecksumPrefersPerAsset([Sha256File, PlainBuild], "foo_linux_amd64", 0);
  }

  lemma Sha256FileIsPerAsset()
    ensures PerAssetChecksum(Sha256File, "foo_linux_amd64")
  {
    assert Sha256File.name == "foo_linux_amd64" + ".sha256";
  }

  const GoreleaserManifest: Asset := Asset("cli_0.1.0_checksums.txt", "", "uploaded", 0, "")
  const LinuxTarball: Asset := Asset("foo_linux_amd64.tar.gz", "", "uploaded", 0, "")
  const DarwinTarball: Asset := Asset("foo_darwin_amd64.tar.gz", "", "uploaded", 0, "")
  const WindowsTarball: Asset := Asset("foo_windows_all.tar.gz", "", "uploaded", 0, "")

  /** "goreleaser style": without a `.sha256` file the first checksums manifest is chosen. */
  lemma GoreleaserStyle()
    ensures Checksum([GoreleaserManifest, LinuxTarball, DarwinTarball, WindowsTarball], LinuxTarball.name)
         == Some(GoreleaserManifest)
  {
    NoTarballSha256();
    GoreleaserManifestIsAggregate();
    FirstIsManifest([GoreleaserManifest, LinuxTarball, DarwinTarball, WindowsTarball], LinuxTarball.name);
  }

  lemma FirstIsManifest(assets: seq<Asset>, assetName: string)
    requires forall j :: 0 <= j < |assets| ==> !PerAssetChecksum(assets[j], assetName)
    requires |assets| > 0 && AggregateChecksum(assets[0])
    ensures Checksum(assets, assetName) == Some(assets[0])
  {
    ChecksumFallsBackToManifest(assets, assetName, 0);
  }

  lemma NoTarballSha256()
    ensures forall a :: a in [GoreleaserManifest, LinuxTarball, DarwinTarball, WindowsTarball] ==>
              !PerAssetChecksum(a, LinuxTarball.name)
  {
    assert GoreleaserManifest.name[0] != LinuxTarball.name[0];
    assert LinuxTarball.name[|LinuxTarball.name| - 1] != ".sha256"[6];
    assert DarwinTarball.name[4] != LinuxTarball.name[4];
    assert WindowsTarball.name[4] != LinuxTarball.name[4];
  }

  lemma GoreleaserManifestIsAggregate()
    ensures AggregateChecksum(GoreleaserManifest)
  {
    assert GoreleaserManifest.name == "cli_0.1.0_" + "checksums" + ".txt";
    ContainsInfix("cli_0.1.0_", "checksums", ".txt");
  }
}
