/** The helpers of `Utilities`: the file extension of a compression program, and the
    search of a command along `PATH`. The environment variable's value and the two
    file-system probes (`File.directory?`, `File.exist?`) are parameters. */
module Utilities {

  import opened Wrappers
  import opened Text
  import opened Seqs

  /** The compression programs rubackup knows, in the order of its `case`. */
  const CompressPrograms: seq<string> := ["lzop", "lz4", "gzip", "bzip2", "xz"]

  /** `compress_to_extension`: the extension a program's output conventionally carries;
      `nil` for a program it does not know. */
  function CompressToExtension(prog: string): (r: Option<string>)
    ensures r.Some? <==> prog in CompressPrograms
  {
    if prog == "lzop" then Some("lzo")
    else if prog == "lz4" then Some("lz4")
    else if prog == "gzip" then Some("gz")
    else if prog == "bzip2" then Some("bz2")
    else if prog == "xz" then Some("xz")
    else None
  }

  /** Two known programs never share an extension, so the extension of a file tells which
      program wrote it. */
  lemma CompressExtensionInjective(a: string, b: string)
    requires CompressToExtension(a).Some? && CompressToExtension(a) == CompressToExtension(b)
    ensures a == b
  {
  }

  /** Ruby's `String#split(sep)` with a one-character separator: the fields between
      separators, without the empty fields at the end. */
  function RubySplit(s: string, c: char): (r: seq<string>)
    ensures forall k | 0 <= k < |r| :: c !in r[k]
    ensures r != [] ==> r[|r| - 1] != ""
  {
    DropTrailingEmpty(SplitOn(s, c))
  }

  function DropTrailingEmpty(fields: seq<string>): (r: seq<string>)
    ensures |r| <= |fields| && r == fields[..|r|]
    ensures r != [] ==> r[|r| - 1] != ""
    decreases |fields|
  {
    if fields == [] || fields[|fields| - 1] != "" then fields
    else DropTrailingEmpty(fields[..|fields| - 1])
  }

  /** The directories of `PATH` that exist, in `PATH` order. */
  function ProgramDirs(path: string, isDir: string -> bool): seq<string>
  {
    Filter(RubySplit(path, ':'), isDir)
  }

  /** `path_to_command`: `dir/command` for the first directory of `PATH` that holds
      `command`, or `nil` when none does. */
  method PathToCommand(command: string, path: string, isDir: string -> bool, isFile: string -> bool)
    returns (r: Option<string>)
    ensures var dirs := ProgramDirs(path, isDir);
      && (r.Some? <==> exists i | 0 <= i < |dirs| :: isFile(JoinPath(dirs[i], command)))
      && (r.Some? ==> exists i | 0 <= i < |dirs| ::
            && r.value == JoinPath(dirs[i], command) && isFile(r.value)
            && forall j | 0 <= j < i :: !isFile(JoinPath(dirs[j], command)))
  {
    var dirs := ProgramDirs(path, isDir);
    var i := 0;
    while i < |dirs|
      invariant 0 <= i <= |dirs|
      invariant forall j | 0 <= j < i :: !isFile(JoinPath(dirs[j], command))
    {
      var fullpath := JoinPath(dirs[i], command);
      if isFile(fullpath) {
        r := Some(fullpath);
        assert 0 <= i < |dirs| && r.value == JoinPath(dirs[i], command);
        return;
      }
      i := i + 1;
    }
    return None;
  }
}
