/** The operating-system services the core touches, as oracles: `os.path.exists` and
    `tempfile.NamedTemporaryFile(mode="w", delete=False, prefix=..., suffix=...)` followed by
    one `write`. */
module OsApi {
  import opened Prelude

  /** The file system as far as existence checks see it. */
  class FileSystem {
    /** Environment: the paths that exist. */
    const existing: set<string>

    constructor (existing: set<string>)
      ensures this.existing == existing
    {
      this.existing := existing;
    }

    /** `os.path.exists(path)`. */
    function Exists(path: string): (b: bool)
      ensures b <==> path in existing
    {
      path in existing
    }
  }

  /** The system temporary directory. */
  class TempFiles {
    /** Environment: `tempfile.gettempdir()`. */
    const directory: string
    /** Environment: the random part the next temporary name gets. */
    const nextRandom: string
    /** Environment: whether creating or writing the next file raises (an `OSError` or
        anything else). */
    const failing: bool
    /** The temporary files written so far, by name. */
    var files: map<string, string>

    constructor (directory: string, nextRandom: string, failing: bool)
      ensures this.directory == directory && this.nextRandom == nextRandom && this.failing == failing
      ensures files == map[]
    {
      this.directory := directory;
      this.nextRandom := nextRandom;
      this.failing := failing;
      files := map[];
    }

    /** The name `NamedTemporaryFile` picks: directory, prefix, random part, suffix. */
    function NextName(prefix: string, suffix: string): (name: string)
      ensures name == directory + "/" + prefix + nextRandom + suffix
    {
      directory + "/" + prefix + nextRandom + suffix
    }

    /** Create a temporary file that outlives its handle and write `content` to it. */
    method WriteNamedTemporaryFile(prefix: string, suffix: string, content: string) returns (name: Option<string>)
      modifies this`files
      ensures failing ==> name.None? && files == old(files)
      ensures !failing ==> name == Some(NextName(prefix, suffix)) && files == old(files)[name.value := content]
    {
      if failing {
        return None;
      }
      var n := NextName(prefix, suffix);
      files := files[n := content];
      return Some(n);
    }
  }
}
