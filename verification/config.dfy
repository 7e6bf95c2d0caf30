/** The run configuration and the errors a run can end with. */
module Config {
  import opened Wrappers
  import opened Paths
  import opened Timestamps
  import opened Oracle

  /** Options: dry-run flag, optional inclusive time bounds, and the move target directory. */
  datatype Options = Options(dryRun: bool, from: Option<Timestamp>, to: Option<Timestamp>, target: Path)

  /** The errors the handlers return, each with the context its message wraps around the cause. */
  datatype Error =
    | StatFailed(path: Path, cause: OsError)
    | TakenTimeFailed(path: Path, reason: ExtractError)
    | ExtractFailed(reason: ExtractError)
    | MkdirFailed(dir: Path, cause: OsError)
    | RenameFailed(src: Path, dst: Path, cause: OsError)
}
