/** An abstract file system: the paths the core reads, their symbolic links, contents and
    modification times, and the calls of `open` and `os.path` the core makes on them. */
module FileSystem {
  import opened Failures

  /** A regular file or a symbolic link; directories are not modelled. */
  datatype Node =
    | Regular(content: string, mtime: int, readable: bool)
    | Symlink(target: string)

  type Fs = map<string, Node>

  /** Linux follows at most 40 symbolic links while it resolves one path, and fails with ELOOP beyond. */
  const MaxSymlinks: nat := 40

  /** The regular file that `path` leads to after following at most `hops` symbolic links. */
  function Resolve(fs: Fs, path: string, hops: nat): (r: Result<string>)
    ensures r.Ok? ==> r.value in fs && fs[r.value].Regular?
    ensures r.Err? ==> r.failure == OsError(ENOENT) || r.failure == OsError(ELOOP)
    ensures path in fs && fs[path].Regular? ==> r == Ok(path)
    ensures path !in fs ==> r == Err(OsError(ENOENT))
    decreases hops
  {
    if path !in fs then Err(OsError(ENOENT))
    else match fs[path]
      case Regular(_, _, _) => Ok(path)
      case Symlink(target) => if hops == 0 then Err(OsError(ELOOP)) else Resolve(fs, target, hops - 1)
  }

  /** `stat(path)`: resolution as the kernel does it. */
  function Stat(fs: Fs, path: string): (r: Result<string>)
    ensures r.Ok? ==> r.value in fs && fs[r.value].Regular?
  {
    Resolve(fs, path, MaxSymlinks)
  }

  /** `open(path).read()` in a `try` that turns ENOENT into the empty text and raises every other error
      (the `read_file` helper of the authselect scanner). */
  function ReadFile(fs: Fs, path: string): (r: Result<string>)
    ensures Stat(fs, path) == Err(OsError(ENOENT)) ==> r == Ok("")
    ensures Stat(fs, path).Ok? ==> var node := fs[Stat(fs, path).value];
      r == if node.readable then Ok(node.content) else Err(OsError(EACCES))
    ensures r.Err? ==> r.failure == OsError(EACCES) || r.failure == OsError(ELOOP)
  {
    match Stat(fs, path)
    case Ok(file) => if fs[file].readable then Ok(fs[file].content) else Err(OsError(EACCES))
    case Err(OsError(ENOENT)) => Ok("")
    case Err(e) => Err(e)
  }

  /** `open(path, 'r').read()`: the content of the file the path leads to, or the error of `open`. */
  function Open(fs: Fs, path: string): (r: Result<string>)
    ensures r.Ok? ==> IsFile(fs, path) && r.value == fs[Stat(fs, path).value].content
  {
    match Stat(fs, path)
    case Ok(file) => if fs[file].readable then Ok(fs[file].content) else Err(OsError(EACCES))
    case Err(e) => Err(e)
  }

  /** `read_file` is `open` with ENOENT turned into the empty text, and nothing else changed. */
  lemma ReadFileIsOpen(fs: Fs, path: string)
    ensures Open(fs, path) == Err(OsError(ENOENT)) ==> ReadFile(fs, path) == Ok("")
    ensures Open(fs, path) != Err(OsError(ENOENT)) ==> ReadFile(fs, path) == Open(fs, path)
    ensures ReadFile(fs, path).Ok? && Open(fs, path).Err? ==> Open(fs, path) == Err(OsError(ENOENT))
  {
  }

  /** `os.path.isfile`: the path leads to a regular file; any error counts as false. */
  predicate IsFile(fs: Fs, path: string) {
    Stat(fs, path).Ok?
  }

  /** `os.path.islink`: the path itself is a symbolic link. */
  predicate IsLink(fs: Fs, path: string) {
    path in fs && fs[path].Symlink?
  }

  /** `os.readlink`, called only on a symbolic link. */
  function ReadLink(fs: Fs, path: string): string
    requires IsLink(fs, path)
  {
    fs[path].target
  }

  /** `os.path.getmtime`: the modification time of the file the path leads to; raises when there is none. */
  function GetMtime(fs: Fs, path: string): (r: Result<int>)
    ensures r.Ok? <==> IsFile(fs, path)
    ensures r.Ok? ==> r.value == fs[Stat(fs, path).value].mtime
  {
    match Stat(fs, path)
    case Ok(file) => Ok(fs[file].mtime)
    case Err(e) => Err(e)
  }

  /** `open(path, 'w').write(content)` at time `now`, on a path that leads to a file: the file the path
      leads to gets the new content and modification time. */
  function WriteFile(fs: Fs, path: string, content: string, now: int): (fs': Fs)
    requires IsFile(fs, path)
    ensures fs'.Keys == fs.Keys
    ensures var file := Stat(fs, path).value;
      fs'[file] == Regular(content, now, fs[file].readable)
      && forall p :: p in fs && p != file ==> fs'[p] == fs[p]
  {
    var file := Stat(fs, path).value;
    fs[file := Regular(content, now, fs[file].readable)]
  }

  /** Writing changes no link and no kind of node, so every path resolves as before. */
  lemma {:induction false} WriteKeepsResolve(fs: Fs, file: string, node: Node, path: string, hops: nat)
    requires file in fs && fs[file].Regular? && node.Regular?
    ensures Resolve(fs[file := node], path, hops) == Resolve(fs, path, hops)
    decreases hops
  {
    if path in fs && fs[path].Symlink? && hops > 0 {
      WriteKeepsResolve(fs, file, node, fs[path].target, hops - 1);
    }
  }

  lemma WriteKeepsStat(fs: Fs, path: string, content: string, now: int, other: string)
    requires IsFile(fs, path)
    ensures Stat(WriteFile(fs, path, content, now), other) == Stat(fs, other)
  {
    var file := Stat(fs, path).value;
    WriteKeepsResolve(fs, file, Regular(content, now, fs[file].readable), other, MaxSymlinks);
  }

  /** Two file systems with the same paths, the same links, and regular files where the other has
      them, resolve every path alike. */
  lemma {:induction false} SameLinksResolve(fs: Fs, fs': Fs, path: string, hops: nat)
    requires fs'.Keys == fs.Keys
    requires forall p :: p in fs && fs[p].Symlink? ==> fs'[p] == fs[p]
    requires forall p :: p in fs && fs[p].Regular? ==> fs'[p].Regular?
    ensures Resolve(fs', path, hops) == Resolve(fs, path, hops)
    decreases hops
  {
    if path in fs && fs[path].Symlink? && hops > 0 {
      SameLinksResolve(fs, fs', fs[path].target, hops - 1);
    }
  }
}
