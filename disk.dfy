/** What the modelled code learns from the operating system, passed in as values: the
    working directory, what `fs::canonicalize` returns for each path it succeeds on, the
    contents of the files that can be opened and read, which paths exist and which of them
    are directories, and the `glob` crate's pattern compiler and matcher. */
module Disk {
  import opened Wrappers

  /** `glob::Pattern::new(p).is_ok()` and `Pattern::new(p).unwrap().matches(s)`. */
  datatype Glob = Glob(compiles: string -> bool, matches: (string, string) -> bool)

  datatype Host = Host(
    cwd: Option<string>,
    canonical: map<string, string>,
    files: map<string, string>,
    existing: set<string>,
    dirs: set<string>,
    glob: Glob)
}
