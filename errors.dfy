/** The errors the update pipeline returns, one constructor per distinct Go error value. */
module Errors {

  datatype Error =
    // sentinel errors of package github (pkg/github/github.go)
    | UnknownArchiveType            // "unknown archive type"
    | NoMatchingArchitectures       // "no matching architectures"
    | NoAssets                      // "no assets"
    | ChecksumMismatch              // "checksum mismatch"
    | UnsupportedChecksumFormat     // "unsupported checksum format"
    | ReleaseNotFound               // "release not found" (both files)
    // ad-hoc errors built with errors.New / errors.Errorf
    | NoMatchingFileInArchive       // "unable to find matching file in archive" (both files)
    | UnexpectedStatusCode(code: int)
    | NoAssetsFound                 // root file: "no assets found"
    | NoFileMatchingArchitecture    // root file: "unable to find file matching architecture"
    | UndeterminedArchiveType       // root file: "unable to determine file type of archive"
    // the panic of NewGitHubUpdateChecker, "invalid repo: <fqRepo>"
    | InvalidRepo(fqRepo: string)
    // a failure reported by a collaborator outside the model (network, file system, JSON)
    | Io(message: string)
    // errors.Wrap(cause, context)
    | Wrapped(context: string, cause: Error)
}
