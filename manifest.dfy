/**
 * downloadAndParseChecksum: reading the digest of one asset out of a checksum manifest.
 * Each line is split on a single space; a line counts only when it has exactly two
 * pieces and the second, trimmed, ends with the asset's name.
 */
module Manifest {
  import opened Wrappers
  import opened Errors
  import opened Search
  import opened GoStrings

  /** A line that names the asset: two space-separated pieces, the second ending in `assetName`. */
  predicate IsDigestLine(line: string, assetName: string) {
    var parts := Split(line, ' ');
    |parts| == 2 && HasSuffix(TrimSpace(parts[1]), assetName)
  }

  /** The digest a matching line gives: its first piece, trimmed. */
  function DigestField(line: string): string {
    TrimSpace(Split(line, ' ')[0])
  }

  /** The digest the first line naming `assetName` gives, or ErrUnsupportedChecksumFormat. */
  function FirstDigest(lines: seq<string>, assetName: string): (r: Result<string, Error>)
    ensures r.Err? <==> forall k :: 0 <= k < |lines| ==> !IsDigestLine(lines[k], assetName)
    ensures r.Err? ==> r.error == UnsupportedChecksumFormat
    ensures r.Ok? ==> exists k :: 0 <= k < |lines| && IsDigestLine(lines[k], assetName)
                                 && r.value == DigestField(lines[k])
                                 && forall j :: 0 <= j < k ==> !IsDigestLine(lines[j], assetName)
  {
    match FindFirst(lines, l => IsDigestLine(l, assetName))
    case Some(k) => Ok(DigestField(lines[k]))
    case None => Err(UnsupportedChecksumFormat)
  }

  /** The digest the manifest `body` gives for `assetName`: the first of its lines that names it. */
  function ManifestDigest(body: string, assetName: string): (r: Result<string, Error>)
    ensures r.Err? <==> forall k :: 0 <= k < |Lines(body)| ==> !IsDigestLine(Lines(body)[k], assetName)
    ensures r.Err? ==> r.error == UnsupportedChecksumFormat
  {
    FirstDigest(Lines(body), assetName)
  }

  /** The scanner loop of downloadAndParseChecksum, over the lines the scanner yields. */
  method ScanManifest(lines: seq<string>, assetName: string) returns (r: Result<string, Error>)
    ensures r == FirstDigest(lines, assetName)
  {
    var i := 0;
    while i < |lines|
      invariant 0 <= i <= |lines|
      invariant forall j :: 0 <= j < i ==> !IsDigestLine(lines[j], assetName)
    {
      var line := lines[i];
      var parts := Split(line, ' ');
      if |parts| == 2 {
        if HasSuffix(TrimSpace(parts[1]), assetName) {
          FindFirstAt(lines, l => IsDigestLine(l, assetName), i);
          return Ok(TrimSpace(parts[0]));
        }
      }
      i := i + 1;
    }
    return Err(UnsupportedChecksumFormat);
  }

  /** Parsing a manifest body: the scanner's lines, then the loop over them. */
  method ParseChecksum(body: string, assetName: string) returns (r: Result<string, Error>)
    ensures r == ManifestDigest(body, assetName)
  {
    r := ScanManifest(Lines(body), assetName);
  }

  /**
   * What downloadAndParseChecksum returns: the manifest at `url` is fetched with `get`
   * (http.Get and the body read, outside the model) and parsed; a fetch error is
   * returned unwrapped.
   */
  function DownloadedDigest(url: string, assetName: string, get: string -> Result<string, Error>)
    : Result<string, Error>
  {
    match get(url)
    case Err(e) => Err(e)
    case Ok(body) => ManifestDigest(body, assetName)
  }

  /** downloadAndParseChecksum, step by step. */
  method DownloadAndParseChecksum(url: string, assetName: string, get: string -> Result<string, Error>)
    returns (r: Result<string, Error>)
    ensures get(url).Err? ==> r == Err(get(url).error)
    ensures get(url).Ok? ==> r == ManifestDigest(get(url).value, assetName)
    ensures r == DownloadedDigest(url, assetName, get)
  {
    var body := get(url);
    if body.Err? {
      return Err(body.error);
    }
    r := ParseChecksum(body.value, assetName);
  }

  /** Once a line matches, nothing after the next newline can change the digest. */
  lemma ManifestLaterLinesIgnored(head: string, tail: string, assetName: string)
    requires ManifestDigest(head, assetName).Ok?
    ensures ManifestDigest(head + "\n" + tail, assetName) == ManifestDigest(head, assetName)
  {
    LinesPrefix(head, tail);
    var mine, whole := Lines(head), Lines(head + "\n" + tail);
    FindFirstExtends(mine, whole, l => IsDigestLine(l, assetName));
    var k := FindFirst(mine, l => IsDigestLine(l, assetName)).value;
    assert whole[k] == mine[k];
  }

  /**
   * A `sha256sum`-style line, digest and name separated by two spaces, splits into
   * three or more pieces and is never taken as a digest line.
   */
  lemma TwoSpaceLineSkipped(digest: string, name: string, assetName: string)
    ensures !IsDigestLine(digest + "  " + name, assetName)
  {
    var line := digest + "  " + name;
    var spaced := [' '] + ([' '] + name);
    assert line == digest + spaced;
    CountAppend(digest, spaced, ' ');
    assert spaced[1..] == [' '] + name;
    assert Count(spaced, ' ') >= 2;
  }

  /**
   * Writing one line `<digest> <name>` and reading it back yields the digest, whatever
   * lines follow, when neither field holds white space.
   */
  lemma ManifestRoundTrip(digest: string, name: string, rest: string)
    requires NoSpace(digest) && NoSpace(name)
    ensures ManifestDigest(digest + " " + name + "\n" + rest, name) == Ok(digest)
  {
    var line := digest + " " + name;
    assert ' ' !in digest && ' ' !in name && '\n' !in line;
    assert line == Join([digest, name], ' ');
    SplitJoin([digest, name], ' ');
    TrimSpaceNoSpace(digest);
    TrimSpaceNoSpace(name);
    assert IsDigestLine(line, name);
    SplitNoSeparator(line, '\n');
    assert |line| > 0 ==> line[|line| - 1] != '\r' by {
      if |name| > 0 { assert line[|line| - 1] == name[|name| - 1]; }
    }
    assert Lines(line) == [line];
    FindFirstAt(Lines(line), l => IsDigestLine(l, name), 0);
    ManifestLaterLinesIgnored(line, rest, name);
  }
}
