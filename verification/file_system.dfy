/** The file system as the core sees it: a map from path to file text, and
    the path functions of `System.IO.Path`, which the model does not interpret. */
module FileSystem {
  import opened Common

  /** The files on disk, by path, with their full text. */
  type Files = map<string, string>

  /** `Path.Join`, `Path.GetFileName` and `Path.GetDirectoryName`; the last
      gives `None` where .NET returns null (a root or an empty path). */
  datatype PathOps = PathOps(
    join: (string, string) -> string,
    fileName: string -> string,
    directoryName: string -> Option<string>)
}
