/** What the build script takes from its surroundings: the filesystem probe of
    `_isValidPath`, Node's `path.join` and `path.normalize`, and the fatal
    configuration errors that `log.ter` reports before ending the process. */
module Hosts {

  /** The host, as values the caller supplies. `isDir` and `isFile` stand for
      `_isValidPath(p, 'd')` and `_isValidPath(p, 'f')` (a path that cannot be
      probed is neither); `join` and `normalize` for the path library. */
  datatype Host = Host(
    isDir: string -> bool,
    isFile: string -> bool,
    join: seq<string> -> string,
    normalize: string -> string)

  /** Node's `path.join` never returns the empty string (it gives "." instead);
      the script's "not found" test relies on that. */
  ghost predicate JoinNeverEmpty(join: seq<string> -> string)
  {
    forall parts :: join(parts) != ""
  }

  /** Each place where the script calls `log.ter`, and so exits. */
  datatype Abort =
    | InsufficientArguments
    | InvalidScssDir(scssdir: string)
    | CssDirNotFound
    | InvalidCssDir(cssdir: string)
    | ScssDirNotFound
    | InvalidScssFile(path: string)
    | InvalidStyle(style: string)
    | InvalidImageDir(imagedir: string)
    | InvalidReloadDir(reloaddir: string)

  /** A configuration step either yields a value or ends the process. */
  datatype Outcome<T> = Done(value: T) | Aborted(reason: Abort)
}
