/**
 * The local filesystem as the sync utilities see it through `os`, `pathlib`
 * and `shutil`: a map from absolute paths (sequences of segments below the
 * root) to nodes. Queries that follow symbolic links (`exists`, `is_dir`,
 * `is_file`, `stat`) follow a link in the last segment, at most 40 times as
 * Linux does; intermediate segments are taken to be resolved already.
 */
module Filesystem {
  import opened Wrappers
  import Text

  /** One path component: never empty, never containing `/`. */
  type Segment = s: string | s != "" && '/' !in s witness "_"

  /** An absolute path as its components below `/`; `[]` is the root. */
  type Path = seq<Segment>

  newtype byte = x: int | 0 <= x < 256

  datatype Node = File(data: seq<byte>, mtime: int) | Dir | Symlink(target: Path)

  type Fs = map<Path, Node>

  const MaxSymlinkHops: nat := 40

  /** `os.lstat`: the node stored at `p` itself; the root is always a directory. */
  function Lstat(fs: Fs, p: Path): Option<Node> {
    if p == [] then Some(Dir) else if p in fs then Some(fs[p]) else None
  }

  /** The node reached from `p` by following links; `None` when dangling or looping. */
  function Follow(fs: Fs, p: Path, hops: nat): (r: Option<Node>)
    ensures r.Some? ==> !r.value.Symlink?
    decreases hops
  {
    match Lstat(fs, p)
    case None => None
    case Some(Symlink(t)) => if hops == 0 then None else Follow(fs, t, hops - 1)
    case Some(n) => Some(n)
  }

  /** `os.stat`. */
  function Stat(fs: Fs, p: Path): Option<Node> {
    Follow(fs, p, MaxSymlinkHops)
  }

  predicate Exists(fs: Fs, p: Path) {
    Stat(fs, p).Some?
  }

  predicate IsDir(fs: Fs, p: Path) {
    Stat(fs, p) == Some(Dir)
  }

  predicate IsFile(fs: Fs, p: Path) {
    Stat(fs, p).Some? && Stat(fs, p).value.File?
  }

  predicate IsSymlink(fs: Fs, p: Path) {
    Lstat(fs, p).Some? && Lstat(fs, p).value.Symlink?
  }

  /** A node that is not a link is what both `lstat` and `stat` report. */
  lemma StatOfPlainNode(fs: Fs, p: Path)
    requires Lstat(fs, p).Some? && !Lstat(fs, p).value.Symlink?
    ensures Stat(fs, p) == Lstat(fs, p)
  {
  }

  /** Following links from `p`, at most `hops` times, never reaches a path of `x`. */
  predicate Avoids(fs: Fs, p: Path, hops: nat, x: set<Path>)
    decreases hops
  {
    && p !in x
    && (Lstat(fs, p).Some? && Lstat(fs, p).value.Symlink? && hops > 0 ==>
          Avoids(fs, Lstat(fs, p).value.target, hops - 1, x))
  }

  /** Changing only paths a link chain avoids does not change where it leads. */
  lemma {:induction false} FollowAvoiding(fs: Fs, fs': Fs, p: Path, hops: nat, x: set<Path>)
    requires Avoids(fs, p, hops, x)
    requires forall q :: q !in x ==> Lstat(fs', q) == Lstat(fs, q)
    ensures Follow(fs', p, hops) == Follow(fs, p, hops)
    decreases hops
  {
    if Lstat(fs, p).Some? && Lstat(fs, p).value.Symlink? && hops > 0 {
      FollowAvoiding(fs, fs', Lstat(fs, p).value.target, hops - 1, x);
    }
  }

  /**
   * Adding directories at new paths cannot make a chain lead to a regular
   * file it did not lead to before.
   */
  lemma {:induction false} FollowIntoNewDirs(fs: Fs, fs': Fs, p: Path, hops: nat)
    requires forall q :: q in fs ==> q in fs' && fs'[q] == fs[q]
    requires forall q :: q in fs' && q !in fs ==> fs'[q] == Dir
    requires Follow(fs', p, hops).Some? && Follow(fs', p, hops).value.File?
    ensures Follow(fs, p, hops) == Follow(fs', p, hops)
    decreases hops
  {
    if p != [] && p in fs && fs[p].Symlink? && hops > 0 {
      FollowIntoNewDirs(fs, fs', fs[p].target, hops - 1);
    }
  }

  /** `path.parent`; the root is its own parent. */
  function Parent(p: Path): Path {
    if p == [] then [] else p[..|p| - 1]
  }

  /** `path.name`; empty for the root. */
  function Name(p: Path): string {
    if p == [] then "" else p[|p| - 1]
  }

  /** `str(path)` for an absolute POSIX path. */
  function PathText(p: Path): (s: string)
    ensures s != [] && s[0] == '/'
  {
    "/" + Text.Join(p, "/")
  }

  /** Whether `a` is `b` or one of its ancestors. */
  predicate IsPrefix(a: Path, b: Path) {
    |a| <= |b| && b[..|a|] == a
  }

  /**
   * `Path(p).mkdir(parents=True, exist_ok=True)`: succeeds when `p` already is
   * a directory, creates missing ancestors first, and fails when `p` or an
   * ancestor exists as something other than a directory.
   */
  function MakeDirs(fs: Fs, p: Path): (r: Result<Fs, string>)
    ensures r.Success? ==> IsDir(r.value, p)
    ensures r.Success? ==> fs.Keys <= r.value.Keys
    ensures r.Success? ==> forall q :: q in fs ==> r.value[q] == fs[q]
    ensures r.Success? ==> forall q :: q in r.value && q !in fs ==> r.value[q] == Dir && IsPrefix(q, p)
    ensures Exists(fs, p) && !IsDir(fs, p) ==> r.Failure?
    decreases |p|
  {
    match Lstat(fs, p)
    case Some(_) =>
      if IsDir(fs, p) then Success(fs) else Failure("[Errno 17] File exists: '" + PathText(p) + "'")
    case None =>
      match MakeDirs(fs, Parent(p))
      case Failure(e) => Failure(e)
      case Success(fs') =>
        assert p != [] && p !in fs' && Parent(p) + [Name(p)] == p;
        Success(fs'[p := Dir])
  }

  /**
   * `os.rename(src, dst)` / `os.replace(src, dst)` between entries of one
   * directory: the node at `src` (a link is moved as the link) replaces
   * whatever non-directory sits at `dst`.
   */
  function Rename(fs: Fs, src: Path, dst: Path): (r: Result<Fs, string>)
    ensures r.Success? ==> src != [] && src in fs && !fs[src].Dir?
    ensures r.Success? && src != dst ==> r.value == (fs - {src})[dst := fs[src]]
    ensures r.Success? && src == dst ==> r.value == fs
  {
    match Lstat(fs, src)
    case None => Failure("[Errno 2] No such file or directory: '" + PathText(src) + "'")
    case Some(Dir) => Failure("renaming a directory is not part of this model: '" + PathText(src) + "'")
    case Some(n) =>
      if src == dst then Success(fs)
      else if Lstat(fs, dst) == Some(Dir) then Failure("[Errno 21] Is a directory: '" + PathText(dst) + "'")
      else Success((fs - {src})[dst := n])
  }

  /**
   * `shutil.copy2(src, dst)`: the bytes and the modification time of the file
   * `src` leads to become a new regular file at `dst`, whose directory must exist.
   */
  function Copy2(fs: Fs, src: Path, dst: Path): (r: Result<Fs, string>)
    ensures r.Success? ==> Stat(fs, src).Some? && Stat(fs, src).value.File?
    ensures r.Success? ==> dst != [] && r.value == fs[dst := Stat(fs, src).value]
    ensures r.Success? ==> dst != src
  {
    if src == dst then Failure("'" + PathText(src) + "' and '" + PathText(dst) + "' are the same file")
    else
      match Stat(fs, src)
      case None => Failure("[Errno 2] No such file or directory: '" + PathText(src) + "'")
      case Some(Dir) => Failure("[Errno 21] Is a directory: '" + PathText(src) + "'")
      case Some(File(data, mtime)) =>
        if dst == [] || Lstat(fs, dst) == Some(Dir) || IsSymlink(fs, dst) then
          Failure("writing through an existing directory or link is not part of this model: '" + PathText(dst) + "'")
        else if !IsDir(fs, Parent(dst)) then
          Failure("[Errno 2] No such file or directory: '" + PathText(dst) + "'")
        else Success(fs[dst := File(data, mtime)])
  }
}
