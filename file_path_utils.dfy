/**
 * Path helpers of the sync utilities: input validation of `normalize_path`,
 * order-preserving de-duplication, the `.roo` marker-directory test, the
 * `.roo`-relative path of a file, and `ensure_folder`.
 *
 * What `normalize_path` does after validating its input (expanding `~` and
 * environment variables, resolving symbolic links) depends on the machine;
 * it is the `resolve` parameter here.
 */
module FilePathUtils {
  import opened Wrappers
  import opened Text
  import opened Filesystem

  /** The argument kinds the helpers distinguish: None, a str, a pathlib.Path (as its text), anything else. */
  datatype PathArg = NoneArg | StrArg(s: string) | PathObj(s: string) | OtherArg

  /** The machine-dependent expansion and resolution of a non-blank path text. */
  type Resolver = string -> Path

  const RooDirName: Segment := ".roo"

  /** `normalize_path`: rejects None, other types and blank text, otherwise resolves the trimmed text. */
  function NormalizePath(p: PathArg, resolve: Resolver): (r: Result<Path, string>)
    ensures r.Failure? <==> (p.NoneArg? || p.OtherArg? || Strip(p.s) == "")
    ensures r.Success? ==> r.value == resolve(Strip(p.s))
  {
    match p
    case NoneArg => Failure("p must not be None")
    case OtherArg => Failure("p must be a str or pathlib.Path")
    case _ =>
      var s := Strip(p.s);
      if s == "" then Failure("p must not be empty") else Success(resolve(s))
  }

  /** Whitespace around the text, at either end, does not change what `normalize_path` returns. */
  lemma NormalizeIgnoresSurroundingSpace(pre: string, s: string, suf: string, resolve: Resolver)
    requires AllSpace(pre) && AllSpace(suf)
    ensures NormalizePath(StrArg(pre + s + suf), resolve) == NormalizePath(StrArg(s), resolve)
    ensures NormalizePath(PathObj(pre + s + suf), resolve) == NormalizePath(PathObj(s), resolve)
  {
    StripIgnoresPadding(pre, s, suf);
  }

  /** The text of an absolute path is never blank, so a Path object always normalises. */
  lemma PathObjectNormalizes(p: Path, resolve: Resolver)
    ensures NormalizePath(PathObj(PathText(p)), resolve).Success?
  {
    var t := PathText(p);
    assert t != [] && t[0] == '/';
    StripOfNonSpaceStart(t);
  }

  lemma StripOfNonSpaceStart(t: string)
    requires t != [] && !IsSpace(t[0])
    ensures Strip(t) != ""
  {
    assert TrimStart(t) == t;
    TrimEndStopsAtNonSpace(t, 0);
  }

  /** Cutting trailing space never goes past a non-space character. */
  lemma {:induction false} TrimEndStopsAtNonSpace(t: string, k: nat)
    requires k < |t| && !IsSpace(t[k])
    ensures |TrimEnd(t)| > k
  {
    if |t| > 0 && IsSpace(t[|t| - 1]) {
      assert k < |t| - 1;
      assert t[..|t| - 1][k] == t[k];
      TrimEndStopsAtNonSpace(t[..|t| - 1], k);
    }
  }

  /** A path resolves to itself: it is the text of a path that `normalize_path` leaves alone. */
  predicate Canonical(p: Path, resolve: Resolver) {
    resolve(Strip(PathText(p))) == p
  }

  // ---------------------------------------------------------------- deduplicate_paths

  /** The elements of `xs` in the order they first appear, each once. */
  function Unique(xs: seq<Path>): (r: seq<Path>)
    ensures |r| <= |xs|
    ensures forall x :: x in r <==> x in xs
    ensures forall i, j :: 0 <= i < j < |r| ==> r[i] != r[j]
  {
    if xs == [] then []
    else
      var u := Unique(xs[..|xs| - 1]);
      var x := xs[|xs| - 1];
      assert forall y :: y in xs <==> y in xs[..|xs| - 1] || y == x by {
        assert xs == xs[..|xs| - 1] + [x];
      }
      if x in u then u else u + [x]
  }

  /** Position of the first occurrence of `x` in `xs`. */
  function FirstIndex(xs: seq<Path>, x: Path): (i: nat)
    requires x in xs
    ensures i < |xs| && xs[i] == x && x !in xs[..i]
  {
    if xs[0] == x then 0 else 1 + FirstIndex(xs[1..], x)
  }

  lemma FirstIndexOfPrefix(xs: seq<Path>, y: Path, x: Path)
    requires x in xs
    ensures FirstIndex(xs + [y], x) == FirstIndex(xs, x)
  {
    var i, j := FirstIndex(xs, x), FirstIndex(xs + [y], x);
    assert (xs + [y])[i] == x;
  }

  /** `deduplicate_paths` keeps each path at the position where it first appears. */
  lemma {:induction false} UniqueKeepsFirstSeenOrder(xs: seq<Path>)
    ensures forall i, j :: 0 <= i < j < |Unique(xs)| ==>
      FirstIndex(xs, Unique(xs)[i]) < FirstIndex(xs, Unique(xs)[j])
  {
    if xs != [] {
      var pre, x := xs[..|xs| - 1], xs[|xs| - 1];
      assert xs == pre + [x];
      UniqueKeepsFirstSeenOrder(pre);
      var u := Unique(pre);
      forall y | y in u ensures FirstIndex(xs, y) == FirstIndex(pre, y) {
        FirstIndexOfPrefix(pre, x, y);
      }
      if x !in u {
        assert x !in pre;
        assert FirstIndex(xs, x) == |pre| by {
          assert xs[|pre|] == x;
          assert x !in xs[..|pre|];
        }
      }
    }
  }

  /** A list that has no repeats is its own de-duplication. */
  lemma {:induction false} UniqueOfDistinct(xs: seq<Path>)
    requires forall i, j :: 0 <= i < j < |xs| ==> xs[i] != xs[j]
    ensures Unique(xs) == xs
  {
    if xs != [] {
      var pre := xs[..|xs| - 1];
      UniqueOfDistinct(pre);
      assert xs[|xs| - 1] !in pre;
      assert pre + [xs[|xs| - 1]] == xs;
    }
  }

  /** De-duplicating twice is de-duplicating once. */
  lemma UniqueIdempotent(xs: seq<Path>)
    ensures Unique(Unique(xs)) == Unique(xs)
  {
    UniqueOfDistinct(Unique(xs));
  }

  /** Normalises every argument in order; the first one that raises decides the error. */
  function NormalizeAll(args: seq<PathArg>, resolve: Resolver): (r: Result<seq<Path>, string>)
    ensures r.Success? ==> |r.value| == |args|
  {
    if args == [] then Success([])
    else
      match NormalizeAll(args[..|args| - 1], resolve)
      case Failure(e) => Failure(e)
      case Success(ps) =>
        match NormalizePath(args[|args| - 1], resolve)
        case Failure(e) => Failure(e)
        case Success(p) => Success(ps + [p])
  }

  /** Every argument normalises. */
  predicate AllNormalize(args: seq<PathArg>, resolve: Resolver) {
    forall i :: 0 <= i < |args| ==> NormalizePath(args[i], resolve).Success?
  }

  /** `ps` holds each argument's normalised path at its position. */
  predicate NormalizedAt(args: seq<PathArg>, ps: seq<Path>, resolve: Resolver) {
    |ps| == |args| && forall i :: 0 <= i < |args| ==> NormalizePath(args[i], resolve) == Success(ps[i])
  }

  /**
   * `NormalizeAll` succeeds exactly when every argument normalises, and then
   * holds each argument's normalised path at its position.
   */
  lemma {:induction false} NormalizeAllElementwise(args: seq<PathArg>, resolve: Resolver)
    ensures NormalizeAll(args, resolve).Success? <==> AllNormalize(args, resolve)
    ensures NormalizeAll(args, resolve).Success? ==> NormalizedAt(args, NormalizeAll(args, resolve).value, resolve)
  {
    if args != [] {
      var n := |args| - 1;
      var pre := args[..n];
      NormalizeAllElementwise(pre, resolve);
      match NormalizeAll(pre, resolve)
      case Failure(_) =>
        var i :| 0 <= i < |pre| && NormalizePath(pre[i], resolve).Failure?;
        assert pre[i] == args[i];
      case Success(ps) =>
        if NormalizePath(args[n], resolve).Success? {
          NormalizedAtSnoc(args, ps, NormalizePath(args[n], resolve).value, resolve);
        } else {
          assert !NormalizePath(args[n], resolve).Success?;
        }
    }
  }

  lemma NormalizedAtSnoc(args: seq<PathArg>, ps: seq<Path>, p: Path, resolve: Resolver)
    requires args != [] && NormalizedAt(args[..|args| - 1], ps, resolve)
    requires NormalizePath(args[|args| - 1], resolve) == Success(p)
    ensures NormalizedAt(args, ps + [p], resolve)
  {
    var n := |args| - 1;
    var pre, qs := args[..n], ps + [p];
    forall i | 0 <= i < |args|
      ensures NormalizePath(args[i], resolve) == Success(qs[i])
    {
      if i < n {
        assert NormalizePath(pre[i], resolve) == Success(ps[i]);
        assert pre[i] == args[i] && qs[i] == ps[i];
      } else {
        assert qs[i] == p;
      }
    }
  }

  /** What `deduplicate_paths` returns or raises. */
  function DeduplicateSpec(paths: Option<seq<PathArg>>, resolve: Resolver): Result<seq<Path>, string> {
    match paths
    case None => Failure("paths must not be None")
    case Some(args) =>
      match NormalizeAll(args, resolve)
      case Failure(e) => Failure(e)
      case Success(ps) => Success(Unique(ps))
  }

  /** De-duplicating one more element: it is kept exactly when it is new. */
  lemma UniqueSnoc(xs: seq<Path>, x: Path)
    ensures Unique(xs + [x]) == if x in Unique(xs) then Unique(xs) else Unique(xs) + [x]
  {
    assert (xs + [x])[..|xs|] == xs;
  }

  lemma NormalizeAllSnoc(args: seq<PathArg>, i: nat, resolve: Resolver, ps: seq<Path>)
    requires i < |args| && NormalizeAll(args[..i], resolve) == Success(ps)
    requires NormalizePath(args[i], resolve).Success?
    ensures NormalizeAll(args[..i + 1], resolve) == Success(ps + [NormalizePath(args[i], resolve).value])
  {
    SliceSnoc(args, i);
    NormalizeAllCons(args[..i], args[i], resolve, ps, NormalizePath(args[i], resolve).value);
  }

  lemma InitPrefix<T>(s: seq<T>, m: nat)
    requires m < |s| - 1
    ensures s[..|s| - 1][..m] == s[..m] && s[..|s| - 1][m] == s[m]
  {
  }

  lemma SliceSnoc<T>(s: seq<T>, i: nat)
    requires i < |s|
    ensures s[..i + 1] == s[..i] + [s[i]]
  {
  }

  lemma NormalizeAllCons(pre: seq<PathArg>, x: PathArg, resolve: Resolver, ps: seq<Path>, p: Path)
    requires NormalizeAll(pre, resolve) == Success(ps) && NormalizePath(x, resolve) == Success(p)
    ensures NormalizeAll(pre + [x], resolve) == Success(ps + [p])
  {
    assert (pre + [x])[..|pre|] == pre;
  }

  /** One step of the loop: a path already seen is skipped, a new one is kept and marked seen. */
  lemma SeenStep(normalized: seq<Path>, out: seq<Path>, seen: set<Path>, x: Path)
    requires out == Unique(normalized) && forall q :: q in seen <==> q in out
    ensures x in seen ==> Unique(normalized + [x]) == out
    ensures x !in seen ==> Unique(normalized + [x]) == out + [x] && forall q :: q in seen + {x} <==> q in out + [x]
  {
    UniqueSnoc(normalized, x);
  }

  /** `deduplicate_paths`: normalises each argument and keeps the first occurrence of each path. */
  method DeduplicatePaths(paths: Option<seq<PathArg>>, resolve: Resolver) returns (r: Result<seq<Path>, string>)
    ensures r == DeduplicateSpec(paths, resolve)
  {
    if paths.None? {
      return Failure("paths must not be None");
    }
    var args := paths.value;
    var seen: set<Path> := {};
    var out: seq<Path> := [];
    ghost var normalized: seq<Path> := [];
    var i := 0;
    while i < |args|
      invariant 0 <= i <= |args|
      invariant NormalizeAll(args[..i], resolve) == Success(normalized)
      invariant out == Unique(normalized)
      invariant forall q :: q in seen <==> q in out
    {
      var np := NormalizePath(args[i], resolve);
      if np.Failure? {
        FailurePropagates(args, i + 1, resolve);
        return Failure(np.error);
      }
      NormalizeAllSnoc(args, i, resolve, normalized);
      SeenStep(normalized, out, seen, np.value);
      if np.value !in seen {
        seen := seen + {np.value};
        out := out + [np.value];
      }
      normalized := normalized + [np.value];
      i := i + 1;
    }
    assert args[..i] == args;
    r := Success(out);
  }

  /** Once an argument fails to normalise, so does every longer prefix, with that error. */
  lemma {:induction false} FailurePropagates(args: seq<PathArg>, n: nat, resolve: Resolver)
    requires 0 < n <= |args|
    requires NormalizeAll(args[..n - 1], resolve).Success?
    requires NormalizePath(args[n - 1], resolve).Failure?
    ensures NormalizeAll(args, resolve) == Failure(NormalizePath(args[n - 1], resolve).error)
  {
    var pre := args[..|args| - 1];
    if n < |args| {
      InitPrefix(args, n - 1);
      FailurePropagates(pre, n, resolve);
    } else {
      assert pre == args[..n - 1];
    }
  }

  /** Each path as the pathlib.Path argument that stands for it. */
  function PathObjs(ps: seq<Path>): (r: seq<PathArg>)
    ensures |r| == |ps|
  {
    if ps == [] then [] else PathObjs(ps[..|ps| - 1]) + [PathObj(PathText(ps[|ps| - 1]))]
  }

  /**
   * Feeding the result of `deduplicate_paths` back in returns it unchanged,
   * provided each returned path resolves to itself.
   */
  lemma DeduplicateIdempotent(args: seq<PathArg>, out: seq<Path>, resolve: Resolver)
    requires DeduplicateSpec(Some(args), resolve) == Success(out)
    requires forall q :: q in out ==> Canonical(q, resolve)
    ensures DeduplicateSpec(Some(PathObjs(out)), resolve) == Success(out)
  {
    NormalizeCanonicalAll(out, resolve);
    UniqueOfDistinct(out);
  }

  lemma {:induction false} NormalizeCanonicalAll(out: seq<Path>, resolve: Resolver)
    requires forall q :: q in out ==> Canonical(q, resolve)
    ensures NormalizeAll(PathObjs(out), resolve) == Success(out)
  {
    if out != [] {
      var pre, last := out[..|out| - 1], out[|out| - 1];
      assert out == pre + [last];
      assert forall q :: q in pre ==> q in out;
      NormalizeCanonicalAll(pre, resolve);
      var objs := PathObjs(out);
      assert objs == PathObjs(pre) + [PathObj(PathText(last))];
      assert objs[..|objs| - 1] == PathObjs(pre);
      assert Canonical(last, resolve) by {
        assert last in out;
      }
      PathObjectNormalizes(last, resolve);
      assert NormalizePath(objs[|objs| - 1], resolve) == Success(last);
    }
  }

  // ---------------------------------------------------------------- .roo detection

  /** A real `.roo` directory (not a link to one) sits directly under `base`. */
  predicate RooDirAt(fs: Fs, base: Path) {
    Lstat(fs, base + [RooDirName]) == Some(Dir)
  }

  /** `exists() and is_dir() and not is_symlink()` is exactly "a directory node that is not a link". */
  lemma RealDirTest(fs: Fs, p: Path)
    requires p != []
    ensures (Exists(fs, p) && IsDir(fs, p) && !IsSymlink(fs, p)) <==> Lstat(fs, p) == Some(Dir)
  {
    if Lstat(fs, p) == Some(Dir) {
      StatOfPlainNode(fs, p);
    }
    if Exists(fs, p) && IsDir(fs, p) && !IsSymlink(fs, p) {
      StatOfPlainNode(fs, p);
    }
  }

  /** `has_roo_dir`. */
  function HasRooDir(fs: Fs, folder: PathArg, resolve: Resolver): (r: Result<bool, string>)
    ensures r.Failure? <==> NormalizePath(folder, resolve).Failure?
    ensures r == Success(true) <==>
      (NormalizePath(folder, resolve).Success?
       && IsDir(fs, NormalizePath(folder, resolve).value)
       && RooDirAt(fs, NormalizePath(folder, resolve).value))
  {
    if folder.NoneArg? then Failure("folder_path must not be None")
    else
      match NormalizePath(folder, resolve)
      case Failure(e) => Failure(e)
      case Success(base) =>
        if !Exists(fs, base) || !IsDir(fs, base) then Success(false)
        else
          var candidate := base + [RooDirName];
          RealDirTest(fs, candidate);
          Success(Exists(fs, candidate) && IsDir(fs, candidate) && !IsSymlink(fs, candidate))
  }

  // ---------------------------------------------------------------- get_roo_relative_path

  /** `get_roo_relative_path`: the `/`-joined segments of `full_path` below `<base_folder>/.roo`. */
  function GetRooRelativePath(fs: Fs, full: PathArg, base: PathArg, resolve: Resolver): (r: Result<Option<string>, string>)
    ensures r.Success? ==> NormalizePath(full, resolve).Success? && NormalizePath(base, resolve).Success?
    ensures (!full.NoneArg? && !base.NoneArg?
             && NormalizePath(full, resolve).Success? && NormalizePath(base, resolve).Success?) ==> r.Success?
    ensures r.Success? && r.value.Some? ==>
      var fp, roo := NormalizePath(full, resolve).value, NormalizePath(base, resolve).value + [RooDirName];
      && RooDirAt(fs, NormalizePath(base, resolve).value)
      && IsPrefix(roo, fp) && |fp| > |roo|
      && r.value.value == Join(fp[|roo|..], "/")
    ensures r.Success? && r.value.None? ==>
      var fp, roo := NormalizePath(full, resolve).value, NormalizePath(base, resolve).value + [RooDirName];
      !RooDirAt(fs, NormalizePath(base, resolve).value) || !IsPrefix(roo, fp) || fp == roo
  {
    if full.NoneArg? then Failure("full_path must not be None")
    else if base.NoneArg? then Failure("base_folder must not be None")
    else
      match NormalizePath(full, resolve)
      case Failure(e) => Failure(e)
      case Success(fp) =>
        match NormalizePath(base, resolve)
        case Failure(e) => Failure(e)
        case Success(b) =>
          var roo := b + [RooDirName];
          RealDirTest(fs, roo);
          if !Exists(fs, roo) || !IsDir(fs, roo) || IsSymlink(fs, roo) then Success(None)
          else if fp == roo then Success(None)
          else if IsPrefix(roo, fp) then Success(Some(Join(fp[|roo|..], "/")))
          else Success(None)
  }

  /** Joining segments with `/` and splitting at `/` gives the segments back. */
  lemma {:induction false} SplitJoinedSegments(segs: Path)
    requires segs != []
    ensures Split(Join(segs, "/"), '/') == segs
  {
    if |segs| == 1 {
      SplitNone(segs[0], '/');
    } else {
      SplitAt(segs[0], '/', Join(segs[1..], "/"));
      SplitJoinedSegments(segs[1..]);
      assert [segs[0]] + segs[1..] == segs;
    }
  }

  /**
   * A relative path `get_roo_relative_path` returns has no leading `/`, and
   * `.roo` followed by its `/`-separated parts is the normalised input path.
   */
  lemma RooRelativePathRebuilds(fs: Fs, full: PathArg, base: PathArg, resolve: Resolver, rel: string)
    requires GetRooRelativePath(fs, full, base, resolve) == Success(Some(rel))
    ensures rel != "" && rel[0] != '/'
    ensures NormalizePath(base, resolve).value + [RooDirName] + Split(rel, '/') == NormalizePath(full, resolve).value
  {
    var fp, roo := NormalizePath(full, resolve).value, NormalizePath(base, resolve).value + [RooDirName];
    TailRebuilds(roo, fp);
  }

  /** The part of `fp` below its ancestor `roo`, joined with `/`, splits back onto `roo` as `fp`. */
  lemma TailRebuilds(roo: Path, fp: Path)
    requires IsPrefix(roo, fp) && |fp| > |roo|
    ensures var rel := Join(fp[|roo|..], "/");
      rel != "" && rel[0] != '/' && roo + Split(rel, '/') == fp
  {
    var segs := fp[|roo|..];
    SplitJoinedSegments(segs);
    assert roo + segs == fp;
    var rel := Join(segs, "/");
    if |segs| > 1 {
      assert rel[0] == segs[0][0];
    } else {
      assert rel == segs[0];
    }
  }

  // ---------------------------------------------------------------- ensure_folder

  /** `ensure_folder`: the normalised path, made a directory along with its missing ancestors. */
  function EnsureFolder(fs: Fs, path: PathArg, resolve: Resolver): (r: Result<(Path, Fs), string>)
    ensures r.Success? ==> NormalizePath(path, resolve) == Success(r.value.0) && IsDir(r.value.1, r.value.0)
    ensures r.Success? ==> forall q :: q in fs ==> q in r.value.1 && r.value.1[q] == fs[q]
    ensures (NormalizePath(path, resolve).Success?
             && Exists(fs, NormalizePath(path, resolve).value)
             && !IsDir(fs, NormalizePath(path, resolve).value)) ==> r.Failure?
  {
    if path.NoneArg? then Failure("path must not be None")
    else
      match NormalizePath(path, resolve)
      case Failure(e) => Failure(e)
      case Success(p) =>
        if Exists(fs, p) && !IsDir(fs, p) then Failure("Path exists and is not a directory: " + PathText(p))
        else
          match MakeDirs(fs, p)
          case Failure(e) => Failure(e)
          case Success(fs') => Success((p, fs'))
  }
}
