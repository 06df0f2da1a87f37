/**
 * The archive prober of package github: recognising a gzip stream and scanning the tar
 * entries inside it for the program's own executable.
 */
module Archive {
  import opened Wrappers
  import opened Errors
  import opened Search
  import opened GoStrings

  /** tar.TypeReg, the type flag of a regular file. */
  const TypeReg: char := '0'

  /** The execute bits of owner, group and other (octal 0111). */
  const ExecBits: bv64 := 0x49

  /**
   * The fields of a tar header the prober reads. Go's `Mode int64` is kept as its
   * two's-complement bit pattern, so that `mode & 0111` means what it means in Go.
   */
  datatype TarHeader = TarHeader(typeflag: char, mode: bv64, name: string)

  /** One call of tar.Reader.Next: a header, or a read error. io.EOF is the end of the sequence. */
  datatype TarRead = Header(header: TarHeader) | ReadError(cause: Error)

  /**
   * A downloaded file as the prober sees it: whether gzip.NewReader accepts it, and the
   * results of successive tar.Reader.Next calls on its decompressed content.
   */
  datatype Archive = Archive(isGzip: bool, entries: seq<TarRead>)

  /** isLikelyFile: some execute bit is set and the base name is the running program's. */
  predicate IsLikelyFile(mode: bv64, name: string, currentExecutableName: string)
    ensures IsLikelyFile(mode, name, currentExecutableName) ==>
              currentExecutableName != "" && (currentExecutableName == "/" || '/' !in currentExecutableName)
    ensures mode & ExecBits == 0 ==> !IsLikelyFile(mode, name, currentExecutableName)
  {
    mode & ExecBits != 0 && currentExecutableName == Base(name)
  }

  /** The cases of the unit test of isLikelyFile. */
  lemma IsLikelyFileExamples()
    ensures IsLikelyFile(0x1ED, "foo", "foo")      // 0755
    ensures !IsLikelyFile(0x124, "foo", "foo")     // 0444
    ensures !IsLikelyFile(0x1ED, "foo2", "foo")    // 0755, another name
  {
    BaseOfPlainName("foo");
    BaseOfPlainName("foo2");
  }

  /** Any one of the owner, group or other execute bits is enough. */
  lemma ExecBitsAreAnyClass(mode: bv64)
    ensures mode & ExecBits != 0 <==> (mode & 0x40 != 0 || mode & 0x08 != 0 || mode & 0x01 != 0)
  {
  }

  /**
   * An executable entry stored under a directory (as `foo_1.0/foo`) is recognised by its
   * last element; and a name holding '/' (other than "/") never matches.
   */
  lemma IsLikelyFileInDirectory(mode: bv64, dir: string, exe: string)
    requires mode & ExecBits != 0 && exe != "" && '/' !in exe
    ensures IsLikelyFile(mode, dir + "/" + exe, exe)
  {
    BaseInDirectory(dir, exe);
  }

  lemma IsLikelyFileNeedsPlainName(mode: bv64, name: string, exe: string)
    requires '/' in exe && exe != "/"
    ensures !IsLikelyFile(mode, name, exe)
  {
  }

  /** The entries that end the scan: a read error, or a regular file that is likely the program. */
  predicate EndsScan(r: TarRead, exe: string) {
    r.ReadError? || (r.header.typeflag == TypeReg && IsLikelyFile(r.header.mode, r.header.name, exe))
  }

  /**
   * What the tar scan of findProbableFileInGzip yields. `write` stands for creating the
   * temporary file, copying the entry into it and setting its mode from the header; it
   * gives the new file's path or the error of whichever of those steps failed.
   */
  function ScanOutcome(entries: seq<TarRead>, exe: string, write: TarHeader -> Result<string, Error>)
    : (r: Result<string, Error>)
    ensures r.Ok? ==> exists k :: 0 <= k < |entries| && entries[k].Header? && EndsScan(entries[k], exe)
                                 && r == write(entries[k].header)
                                 && forall j :: 0 <= j < k ==> !EndsScan(entries[j], exe)
    ensures (forall j :: 0 <= j < |entries| ==> !EndsScan(entries[j], exe)) ==> r == Err(NoMatchingFileInArchive)
  {
    match FindFirst(entries, t => EndsScan(t, exe))
    case None => Err(NoMatchingFileInArchive)
    case Some(k) =>
      match entries[k]
      case ReadError(e) => Err(Wrapped("read next file", e))
      case Header(h) => write(h)
  }

  /** The tar-reading loop of findProbableFileInGzip. */
  method FindProbableFileInGzip(entries: seq<TarRead>, exe: string, write: TarHeader -> Result<string, Error>)
    returns (r: Result<string, Error>)
    ensures r == ScanOutcome(entries, exe, write)
  {
    var i := 0;
    while i < |entries|
      invariant 0 <= i <= |entries|
      invariant forall j :: 0 <= j < i ==> !EndsScan(entries[j], exe)
    {
      var next := entries[i];
      if next.ReadError? {
        FindFirstAt(entries, t => EndsScan(t, exe), i);
        return Err(Wrapped("read next file", next.cause));
      }
      var header := next.header;
      if header.typeflag == TypeReg {
        if IsLikelyFile(header.mode, header.name, exe) {
          FindFirstAt(entries, t => EndsScan(t, exe), i);
          return write(header);
        }
      }
      i := i + 1;
    }
    return Err(NoMatchingFileInArchive);
  }

  /**
   * Entries are skipped unless they are regular files that pass isLikelyFile: an
   * executable of another name, a non-executable of the right name, or a directory or
   * link entry of the right name and mode do not stop the scan.
   */
  lemma ScanSkipsUnlikely(h: TarHeader, rest: seq<TarRead>, exe: string, write: TarHeader -> Result<string, Error>)
    requires !(h.typeflag == TypeReg && IsLikelyFile(h.mode, h.name, exe))
    ensures ScanOutcome([Header(h)] + rest, exe, write) == ScanOutcome(rest, exe, write)
  {
    var all := [Header(h)] + rest;
    assert !EndsScan(all[0], exe);
    match FindFirst(rest, t => EndsScan(t, exe))
    case Some(k) =>
      assert forall j :: 1 <= j <= k ==> all[j] == rest[j - 1];
      FindFirstAt(all, t => EndsScan(t, exe), k + 1);
    case None =>
      assert forall j :: 1 <= j < |all| ==> all[j] == rest[j - 1];
  }

  /** A read error before any likely entry aborts the scan with that error. */
  lemma ScanAbortsOnReadError(entries: seq<TarRead>, exe: string, write: TarHeader -> Result<string, Error>, k: nat)
    requires k < |entries| && entries[k].ReadError?
    requires forall j :: 0 <= j < k ==> !EndsScan(entries[j], exe)
    ensures ScanOutcome(entries, exe, write) == Err(Wrapped("read next file", entries[k].cause))
  {
    FindFirstAt(entries, t => EndsScan(t, exe), k);
  }

  /** The first likely regular file is the one extracted, whatever comes after it. */
  lemma ScanTakesFirstLikely(entries: seq<TarRead>, exe: string, write: TarHeader -> Result<string, Error>, k: nat)
    requires k < |entries| && entries[k].Header? && EndsScan(entries[k], exe)
    requires forall j :: 0 <= j < k ==> !EndsScan(entries[j], exe)
    ensures ScanOutcome(entries, exe, write) == write(entries[k].header)
  {
    FindFirstAt(entries, t => EndsScan(t, exe), k);
  }

  /** An archive holding just `myapp` with mode 0755 yields that entry when `myapp` runs. */
  lemma ScanSingleExecutable(write: TarHeader -> Result<string, Error>)
    ensures ScanOutcome([Header(TarHeader(TypeReg, 0x1ED, "myapp"))], "myapp", write)
         == write(TarHeader(TypeReg, 0x1ED, "myapp"))
  {
    BaseOfPlainName("myapp");
    ScanTakesFirstLikely([Header(TarHeader(TypeReg, 0x1ED, "myapp"))], "myapp", write, 0);
  }

  /**
   * findProbableFileInWhatMightBeAnArchive: a file gzip does not accept fails with
   * ErrUnknownArchiveType; a gzip stream is scanned.
   */
  function ProbeArchive(a: Archive, exe: string, write: TarHeader -> Result<string, Error>): (r: Result<string, Error>)
    ensures !a.isGzip ==> r == Err(UnknownArchiveType)
    ensures a.isGzip ==> r == ScanOutcome(a.entries, exe, write)
  {
    if !a.isGzip then Err(UnknownArchiveType) else ScanOutcome(a.entries, exe, write)
  }
}
