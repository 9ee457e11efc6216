/**
 * The part of the filesystem the drivers see, as a value: directory
 * listings in the order `read_dir` yields them, and text files as the
 * lines `BufRead::lines` yields. A path that is absent from a map cannot be
 * listed or opened.
 */
module FileSystem {
  import opened Wrappers

  type Path = string

  /**
   * One item of a `read_dir` iteration: an entry with its file name and
   * whether `path.is_dir()` holds for it (links are followed), or an I/O
   * error reported in place of an entry.
   */
  datatype DirEntry = Entry(name: string, isDir: bool) | EntryError

  datatype Fs = Fs(dirs: map<Path, seq<DirEntry>>, files: map<Path, seq<string>>)

  /** `fs::read_dir(p)`: the entries, or `None` when the directory cannot be read. */
  function ReadDir(fs: Fs, p: Path): (r: Option<seq<DirEntry>>)
    ensures r.Some? <==> p in fs.dirs
  {
    if p in fs.dirs then Some(fs.dirs[p]) else None
  }

  /** `File::open(p)` followed by `lines()`: the lines, or `None` when it cannot be opened. */
  function ReadLines(fs: Fs, p: Path): (r: Option<seq<string>>)
    ensures r.Some? <==> p in fs.files
  {
    if p in fs.files then Some(fs.files[p]) else None
  }

  /**
   * `Path::join`: an absolute `name` replaces `dir`; otherwise `name` is
   * appended, with a `/` added unless `dir` is empty or already ends in one.
   */
  function Join(dir: Path, name: string): (p: Path)
    ensures |name| <= |p| && p[|p| - |name|..] == name
    ensures (name == [] || name[0] != '/') ==> |dir| <= |p| && p[..|dir|] == dir
  {
    if name != [] && name[0] == '/' then name
    else if dir == [] then name
    else if dir[|dir| - 1] == '/' then dir + name
    else dir + "/" + name
  }
}
