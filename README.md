# usrbin-go self-update pipeline, modelled in Dafny

usrbin-go lets a command-line program update itself from its GitHub releases. Given a
release, the pipeline:

1. picks the asset built for the running OS and architecture;
2. downloads it and looks inside the gzip'd tar for the entry that is the program's executable;
3. finds a checksum asset (a per-asset `.sha256` file or an aggregate `checksums….txt` manifest);
4. parses the expected digest from that asset;
5. compares the expected digest with the digest of the file.

This project models that pipeline twice, as the repository has it twice:

- package `github` (`pkg/github/github.go`): the current version, with the checksum step;
- package `usrbin` (root `github.go`): the older copy. It inlines the asset selection, has no
  checksum step, and sends a `GITHUB_TOKEN` bearer token. Its tar scan (`github.go:157-206`)
  follows package `github`'s scan step for step, except that a failed copy calls
  `log.Fatalf` (`github.go:191-193`); `Usrbin` uses `Archive.FindProbableFileInGzip` for it,
  with the copy folded into the `write` oracle. Its release request (`github.go:233-274`)
  differs only in taking a token and sending it as `Authorization: Bearer <token>`
  (`github.go:247-249`); `Release.GetReleaseDetails` takes the token as a parameter, and
  package `github` passes the empty token, for which no such header is set.

Everything outside the process is an input. This covers the HTTP exchange with the GitHub API
together with its JSON decoding, the download of an asset, the manifest body, and the
extraction of a tar entry to a temporary file. These are the oracle functions of
`Download.Env`. The runtime OS and architecture and the base name of `os.Args[0]` are fields
of `Env` too. Gzip recognition is a flag of the downloaded `Archive`. Its tar entries are a
sequence of headers or read errors.

Modules, in dependency order:

- `Wrappers`: `Option` and `Result`.
- `Errors`: every error value of the two files. Wrapped errors keep the context text of
  `errors.Wrap`.
- `Search`: `FindFirst`, the first-match search that each early-return loop of the source
  performs.
- `GoStrings`: the parts of Go's `strings`, `bufio.ScanLines` and `filepath.Base` that the
  pipeline uses, with the lemmas they need.
- `Assets`: `bestAsset` and `checksum`.
- `Manifest`: `downloadAndParseChecksum`.
- `Archive`: `isLikelyFile`, the tar scan, and the gzip probe.
- `Release`: `NewGitHubUpdateChecker`, plus the URI, header and status logic of
  `getReleaseDetails`.
- `Download`: `DownloadVersion` of package `github`.
- `Usrbin`: the root `github.go`.
- `AssetCases`: the release layouts of the package's table tests.

The two loops of the source that advance a reader are methods with `while` loops proved
against the specification functions:

- the scanner loop is `Manifest.ScanManifest`, over the lines `Manifest.ParseChecksum` splits the body into;
- the tar loop is `Archive.FindProbableFileInGzip`.

The root `DownloadVersion` is a method with its two `for` loops. Each pipeline is a method
proved equal to a function that states the step order: `Download.DownloadOutcome` and
`Usrbin.DownloadOutcome`. The properties are proved about those functions.

Points where the code does something other than what its own comments or names suggest;
the model follows the code:

- The comment at `pkg/github/github.go:155` promises `sha256[whitespace]filepath` lines, but
  line 161 splits on one space character only. A `sha256sum`-style line with two spaces has
  three parts and is skipped (`Manifest.TwoSpaceLineSkipped`).
- The digest checked is that of `archivePath` (`pkg/github/github.go:101`, `117`), which is
  the file extracted from the archive, not the downloaded archive itself.
- The file digest (`checksumFile`, `pkg/github/github.go:172-174`) is a stub that returns the
  empty string. So any manifest that gives the asset a non-empty digest makes
  `DownloadVersion` fail with `ErrChecksumMismatch` (`Download.DownloadStubbedChecksumRejects`).
- The parameter `requireChecksumMatch` (`pkg/github/github.go:90`) is never read.
- Not every error is returned. `NewGitHubUpdateChecker` panics on a malformed repository
  name, which the model represents as the error result `InvalidRepo`. The root tar scan calls
  `log.Fatalf` when copying fails.

The digests are compared with a plain `!=` (`pkg/github/github.go:122`), so the
comparison is exact, letter case included.

## Model

| member | source | states |
|---|---|---|
| Search.FindFirst | pkg/github/github.go:218-243 | the early-return search: a found index satisfies the test and no earlier element does; nothing is found exactly when no element satisfies it |
| Search.FindFirstAt | pkg/github/github.go:218-229 | an element that satisfies the test, with none before it, is the one found |
| Assets.BestAsset | pkg/github/github.go:212-246 | bestAsset as written, with tier 2 testing `hostOS` (runtime.GOOS); its properties are the lemmas below |
| Assets.BestAssetEmpty | pkg/github/github.go:213-215 | an empty list gives ErrNoAssets, whatever the OS, arch and host |
| Assets.BestAssetUploaded | pkg/github/github.go:218-243 | a selected asset is an element of the list and is in state "uploaded" |
| Assets.BestAssetTier1 | pkg/github/github.go:218-229 | the first uploaded asset whose lower-cased name contains the OS and the arch is chosen, even when later ones match too |
| Assets.BestAssetTier2 | pkg/github/github.go:231-243 | when no asset matches tier 1, the first uploaded asset naming the host OS and "all" is chosen |
| Assets.BestAssetNoMatch | pkg/github/github.go:245 | a non-empty list with no match in either tier, including one with no uploaded asset, gives ErrNoMatchingArchitectures |
| Assets.SelectAsset | pkg/github/github.go:212-246 | the selection with both tiers testing the target OS: the error is ErrNoAssets exactly for an empty list and is otherwise ErrNoMatchingArchitectures; a result is an uploaded element naming the OS and the arch or "all" |
| Assets.BestAssetOnHost | pkg/github/github.go:96 | at the only call site, where the OS argument is runtime.GOOS, bestAsset equals the corrected selection |
| Assets.BestAssetIgnoresTargetInTier2 | pkg/github/github.go:238 | for a "foo_linux_all" asset with target linux/amd64 on a darwin host, bestAsset fails while the intended selection picks it |
| Assets.Checksum | pkg/github/github.go:180-207 | never an error: a result is an uploaded element in one of the two tiers; none is returned exactly when no asset is in either tier |
| Assets.ChecksumPrefersPerAsset | pkg/github/github.go:181-192 | the first uploaded `<assetName>…​.sha256` asset wins over any manifest, wherever the manifest is listed |
| Assets.ChecksumFallsBackToManifest | pkg/github/github.go:194-206 | without a per-asset file, the first uploaded `…checksums….txt` asset is chosen |
| Manifest.ManifestDigest | pkg/github/github.go:158-169 | the manifest body gives ErrUnsupportedChecksumFormat exactly when none of its scanner lines names the asset, and fails with no other error |
| Manifest.FirstDigest | pkg/github/github.go:158-169 | no line with two single-space parts whose trimmed second part ends with the name gives ErrUnsupportedChecksumFormat, and only then; otherwise the first such line's trimmed first part is the digest |
| Manifest.ScanManifest | pkg/github/github.go:159-169 | the line-by-line loop returns exactly the first-match digest of `FirstDigest`, or its error |
| Manifest.ParseChecksum | pkg/github/github.go:158-169 | scanning the body's lines (newline-split, trailing `\r` dropped) gives the digest of `ManifestDigest` |
| Manifest.DownloadAndParseChecksum | pkg/github/github.go:145-170 | a failed fetch returns its error unwrapped; a fetched body is parsed as above |
| Manifest.ManifestLaterLinesIgnored | pkg/github/github.go:158-165 | once a line matches, nothing after it changes the result |
| Manifest.TwoSpaceLineSkipped | pkg/github/github.go:161-162 | a `digest  name` line with two spaces never matches |
| Manifest.ManifestRoundTrip | pkg/github/github.go:158-165 | a manifest whose first line is `digest name` gives back `digest` for `name` |
| Archive.IsLikelyFile | pkg/github/github.go:352-360 | a likely file needs an execute bit, and it can only match a program name that is non-empty and slash-free (or "/") |
| Archive.IsLikelyFileExamples | pkg/github/github_test.go:47-83 | 0755 "foo" for "foo" is likely; 0444, and the name "foo2", are not |
| Archive.ExecBitsAreAnyClass | pkg/github/github.go:353 | `mode & 0o111 != 0` holds exactly when one of the owner, group or other execute bits is set |
| Archive.IsLikelyFileInDirectory | pkg/github/github.go:354 | an executable entry `dir/exe` matches the program name `exe` |
| Archive.IsLikelyFileNeedsPlainName | pkg/github/github.go:354 | a program name with a slash in it never matches, since a base name has none |
| Archive.ScanOutcome | pkg/github/github.go:308-349 | the scan's result: success comes from extracting a regular, likely entry; with no such entry and no read error it is "unable to find matching file in archive" |
| Archive.FindProbableFileInGzip | pkg/github/github.go:291-350 | the tar loop returns exactly `ScanOutcome` |
| Archive.ScanSkipsUnlikely | pkg/github/github.go:319-346 | an entry that is not a regular, likely file is passed over |
| Archive.ScanAbortsOnReadError | pkg/github/github.go:315-317 | a read error before any likely file ends the scan with that error, wrapped "read next file" |
| Archive.ScanTakesFirstLikely | pkg/github/github.go:319-345 | the first regular, likely entry is extracted, and its extraction's result is the result |
| Archive.ScanSingleExecutable | pkg/github/github.go:319-345 | an archive holding only an executable `myapp` yields that entry for program `myapp` |
| Archive.ProbeArchive | pkg/github/github.go:270-289 | a file that is not gzip gives ErrUnknownArchiveType; a gzip file is scanned |
| GoStrings.Base | pkg/github/github.go:354 | filepath.Base: the empty path gives "."; otherwise, unless the result is "/", it is the slash-free last element of the path once trailing slashes are stripped; never empty |
| GoStrings.BaseOfSlashes | pkg/github/github.go:354 | a path of slashes only has base name "/" |
| GoStrings.BaseIgnoresTrailingSlash | pkg/github/github.go:354 | a trailing slash does not change the base name of a non-empty path |
| GoStrings.BaseInDirectory | pkg/github/github.go:354 | the base name of `dir/name` is `name` |
| GoStrings.Lines | pkg/github/github.go:158-160 | bufio.ScanLines: one line per newline-separated piece, without the final empty piece and with one trailing carriage return dropped |
| GoStrings.TrimSpace | pkg/github/github.go:163-164 | strings.TrimSpace: the result is an infix of the input with only white space before and after it, and neither starts nor ends with white space |
| GoStrings.TrimSpaceContained | pkg/github/github.go:163-164 | the trimmed string occurs in the input |
| GoStrings.Split | pkg/github/github.go:63 | strings.Split with a one-character separator gives one more part than there are separators |
| GoStrings.JoinSplit | pkg/github/github.go:63 | joining the parts of a split gives back the input |
| GoStrings.ContainsIff | pkg/github/github.go:224-225 | strings.Contains holds exactly when the substring occurs at some position |
| GoStrings.ToLower | pkg/github/github.go:223 | strings.ToLower on ASCII: same length, each upper-case letter becomes its lower-case letter (code point plus 32), every other character unchanged |
| GoStrings.ToLowerIdempotent | pkg/github/github.go:223 | lower-casing twice is lower-casing once |
| Release.ParseRepo | pkg/github/github.go:62-72 | a name with one or two slashes is accepted, any other (the empty name included) is InvalidRepo; the owner and repo have no slash and end the name as `owner/repo` |
| Release.ParseRepoOwnerRepo | pkg/github/github.go:63-65 | `owner/repo` yields that owner and repo |
| Release.ParseRepoHostOwnerRepo | pkg/github/github.go:66-68 | `host/owner/repo` yields the owner and repo, ignoring the first part |
| Release.ParseRepoEmpty | pkg/github/github.go:69-71 | the empty name is rejected |
| Release.NewGitHubUpdateChecker | pkg/github/github.go:60-85 | the checker talks to api.github.com about the parsed owner and repo; a malformed name is the InvalidRepo error |
| Release.ReleaseURI | pkg/github/github.go:365-369 | the URI starts with `<host>/repos/<owner>/<repo>/releases/` and ends with `/releases/latest` for "latest" and with `/tags/<name>` for any other name |
| Release.ReleaseURIInjective | pkg/github/github.go:365-369 | different release names never share a URI: "latest" has its own path and every other name is a tag path |
| Release.RequestHeaders | github.go:247-251 | the Accept header is always set; Authorization is set exactly when the token is non-empty, to `Bearer <token>`; nothing else is set |
| Release.GetReleaseDetails | pkg/github/github.go:362-399 | a URI that url.Parse rejects fails wrapped "new request" before anything is sent; otherwise only a 200 with a decodable body succeeds, with that body; a transport error is wrapped "do request"; 404 is ErrReleaseNotFound; any other status is "unexpected status code" with that code; a 200 whose body does not decode is that error wrapped "decode response" |
| Release.GetLatestVersion | pkg/github/github.go:131-143 | the latest release's tag and publication time, or the details error wrapped "get release details" |
| Download.ChecksumFile | pkg/github/github.go:172-174 | the stub never fails and always reports the empty digest |
| Download.DownloadedFile | pkg/github/github.go:248-268 | a failed fetch is returned as is; a fetched file is probed |
| Download.DownloadFile | pkg/github/github.go:248-268 | the download method returns exactly `DownloadedFile` |
| Download.Verified | pkg/github/github.go:106-125 | with no checksum asset the path is accepted; when the check passes, the path is returned unchanged; it fails only with ErrChecksumMismatch or an error wrapped "download and parse checksum" |
| Download.DownloadOutcome | pkg/github/github.go:90-128 | every failure of DownloadVersion is ErrChecksumMismatch or is wrapped with the name of the step that failed |
| Download.DownloadVersion | pkg/github/github.go:90-128 | the method performs the steps in the source's order and returns exactly `DownloadOutcome` |
| Download.DownloadVersionOk | pkg/github/github.go:90-128 | a success comes from a found release and a selected uploaded asset that is a gzip'd archive holding the program; when a checksum asset exists, its manifest lists the asset with the empty digest (the stub's) |
| Download.DownloadVersionSucceeds | pkg/github/github.go:90-128 | the converse of `DownloadVersionOk`: a found release, a selected and extracted asset, and a checksum manifest (if any) listing the empty digest give success with the extracted file |
| Download.DetailsErrorPropagates | pkg/github/github.go:91-94 | a failed release lookup ends the download with that error wrapped "get release details" |
| Download.SelectionErrorPropagates | pkg/github/github.go:96-99 | a failed selection ends the download with the selection's error wrapped "best asset" |
| Download.DownloadErrorPropagates | pkg/github/github.go:101-104 | a failed download of the selected asset ends with that error wrapped "download file" |
| Download.ManifestErrorPropagates | pkg/github/github.go:111-115 | with a checksum asset, a failed manifest fetch or a manifest without the asset's line ends with that error wrapped "download and parse checksum" |
| Download.DownloadVersionNoAssets | pkg/github/github.go:96-99 | an empty asset list fails with ErrNoAssets wrapped "best asset" |
| Download.DownloadStubbedChecksumRejects | pkg/github/github.go:117-124 | a manifest giving the asset any non-empty digest makes the download fail with ErrChecksumMismatch |
| Download.DownloadScenario | pkg/github/github.go:90-128 | release foo_linux_amd64.tar.gz, foo_darwin_amd64.tar.gz, checksums.txt on linux/amd64: the linux build is taken and checksums.txt consulted; a manifest without its line fails with ErrUnsupportedChecksumFormat, one with a non-empty digest fails with ErrChecksumMismatch, and one listing the empty digest returns the extracted file |
| Download.ScenarioSelectsLinux | pkg/github/github.go:218-229 | in that release the linux/amd64 build is selected |
| Download.ScenarioFindsManifest | pkg/github/github.go:194-206 | in that release checksums.txt is the checksum asset of the linux build |
| Usrbin.NewGitHubUpdateChecker | github.go:47-73 | the same name parsing as package github, and the token is the given GITHUB_TOKEN value |
| Usrbin.CheckersParseAlike | github.go:47-73 | both constructors accept the same names and agree on repository, host, owner and repo |
| Usrbin.ProbeFile | github.go:141-155 | a file that is not gzip gives "unable to determine file type of archive"; a gzip file is scanned |
| Usrbin.ProbesAgree | github.go:141-155 | the two probes differ only in the error for a file that is not gzip |
| Usrbin.DownloadedFile | github.go:119-139 | a failed fetch is returned as is; a fetched file is probed |
| Usrbin.DownloadFile | github.go:119-139 | the download method returns exactly `DownloadedFile` |
| Usrbin.DownloadOutcome | github.go:78-117 | the details error is wrapped "get release details"; an empty list is "no assets found"; a list with no uploaded asset naming the OS and the arch or "all" is "unable to find file matching architecture"; once an asset is selected, the result is its download's, error unwrapped, and a success is always that |
| Usrbin.DownloadVersion | github.go:78-117 | the two loops return the first uploaded asset naming GOOS and GOARCH, else the first naming GOOS and "all", downloaded; the details error is wrapped; an empty list is "no assets found"; no match is "unable to find file matching architecture" |
| Usrbin.DownloadVersionOk | github.go:78-117 | a success is the scan result of a gzip'd, uploaded asset of the release that names the OS and the arch or "all" |
| Usrbin.PackageDownloadIsRootDownload | github.go:78-117 | every file package github's DownloadVersion returns, the root one returns too when it has no token |
| Usrbin.GetLatestVersion | github.go:218-231 | the latest release's tag and publication time, asked with the checker's token |
| Usrbin.LatestRequestCarriesToken | github.go:247-251 | with a token, the request carries `Bearer <token>` and the Accept header |
| AssetCases.MultipleAssetsOneMatching | pkg/github/github_test.go:117-146 | darwin/amd64, linux/arm64, linux/amd64, checksums.txt on linux/amd64: the third asset is chosen |
| AssetCases.WithSha256Extension | pkg/github/github_test.go:197-217 | `foo_linux_amd64.sha256` is the checksum asset of `foo_linux_amd64` |
| AssetCases.GoreleaserStyle | pkg/github/github_test.go:171-196 | `cli_0.1.0_checksums.txt` is the checksum asset of `foo_linux_amd64.tar.gz` |

## Left out

- HTTP is left out: requests, responses and `http.Get`. A request's outcome is the `send` oracle, with the JSON decoding of the body included. Which URIs `url.Parse` rejects inside `http.NewRequest` is the `urlError` oracle; the model wraps its error "new request" as the source does.
- gzip and tar decoding are left out. An archive is a gzip flag and a sequence of tar headers or read errors.
- The file system is left out: temporary files, `io.Copy`, `os.Open`, `os.Chmod`, `os.RemoveAll`, closing files, and the errors of each. These are the `fetch` and `write` oracles.
- The temporary download is removed when `downloadFile` returns. The model does not say when files exist.
- The runtime OS and architecture and `os.Args[0]` are environment inputs.
- SHA-256 is left out. `checksumFile` is the stub the source has.
- The Go 64 KiB token limit of `bufio.Scanner` and its read errors are left out. The model reads the whole body as lines.
- Unicode case mapping and multi-byte characters are left out. `ToLower` maps ASCII letters only, and strings are sequences of characters.
- `log.Fatalf` on a failed copy in the root tar scan is left out, because it ends the process.
- `Usrbin.DownloadVersion`: the root scan's `write` oracle stands for creating the temporary file and setting its mode; the copy step cannot fail there, because in the source a copy failure ends the process.
- The panic of `NewGitHubUpdateChecker` is modelled as the error `InvalidRepo`.
- `Archive.ScanOutcome`: the contract says where a success comes from and when the "no matching file" error occurs, as implications, not as an if-and-only-if. `Archive.ScanTakesFirstLikely` and `Archive.ScanAbortsOnReadError` give the exact result for each case.
- `Download.Verified`: the contract states the no-checksum case, that success keeps the path, and which errors can occur, but not which error a given manifest causes. That is proved, for every release, about `Download.DownloadOutcome`: a failed fetch or a manifest without the asset's line in `Download.ManifestErrorPropagates`, a non-empty listed digest in `Download.DownloadStubbedChecksumRejects`, and the empty digest in `Download.DownloadVersionSucceeds`.
- `pkg/oci/oci.go`, `pkg/updatechecker`, `updatechecker.go`, `homebrew.go`, `upgrade.go`, `updateinfo.go`, `usrbin.go`, `usrbinsdk.go` and `pkg_mgr.go` are not part of this model. They hold the registry copy, semantic-version comparison, package-manager detection and option plumbing.
- The publication time is kept as text. `time.Time` parsing is part of JSON decoding.

## Findings

| source | as written | input that shows it | evidently intended | confidence | as-written member | corrected member |
|---|---|---|---|---|---|---|
| pkg/github/github.go:238 | tier 2 of `bestAsset` tests `runtime.GOOS` instead of its `goos` argument | assets `[foo_linux_all]`, goos `linux`, goarch `amd64`, running on darwin: ErrNoMatchingArchitectures | both tiers test the `goos` argument, so the "all" build for linux is chosen | high, not executed | Assets.BestAssetIgnoresTargetInTier2 | Assets.SelectAsset |
