/**
 * `java.nio.file.Path` as the watcher uses it: a sequence of names.
 * The watched base path and a key's directory are absolute (names from
 * the root); event contexts and the entries handed to subscribers are
 * relative. `resolve` and `relativize` follow the Unix implementation.
 */
module Paths {
  import opened Wrappers
  import Glob

  type Path = seq<string>

  /** `dir.resolve(p)` for a relative `p`; the empty path resolves to `dir` itself. */
  function Resolve(dir: Path, p: Path): Path {
    dir + p
  }

  /** `DirectoryWatcher.actualPath`: a missing context stands for the empty path. */
  function ActualPath(dir: Path, context: Option<Path>): (r: Path)
    ensures context.None? ==> r == dir
  {
    Resolve(dir, context.GetOr([]))
  }

  /** How many leading names `a` and `b` share. */
  function CommonPrefix(a: Path, b: Path): (n: nat)
    ensures n <= |a| && n <= |b|
    ensures a[..n] == b[..n]
    ensures n < |a| && n < |b| ==> a[n] != b[n]
  {
    if a == [] || b == [] || a[0] != b[0] then 0
    else
      var n := 1 + CommonPrefix(a[1..], b[1..]);
      assert a[..n] == [a[0]] + a[1..][..n - 1];
      assert b[..n] == [b[0]] + b[1..][..n - 1];
      n
  }

  function Parents(k: nat): (r: Path)
    ensures |r| == k && forall i :: 0 <= i < k ==> r[i] == ".."
  {
    if k == 0 then [] else [".."] + Parents(k - 1)
  }

  /**
   * `base.relativize(p)`: one `..` for every name of `base` after the
   * common prefix, then the names of `p` after it.
   */
  function Relativize(base: Path, p: Path): Path {
    var n := CommonPrefix(base, p);
    Parents(|base| - n) + p[n..]
  }

  predicate IsPrefix(a: Path, b: Path) {
    |a| <= |b| && b[..|a|] == a
  }

  lemma PrefixTransitive(a: Path, b: Path, c: Path)
    ensures IsPrefix(a, b) && IsPrefix(b, c) ==> IsPrefix(a, c)
  {
    if IsPrefix(a, b) && IsPrefix(b, c) {
      assert c[..|a|] == b[..|a|];
    }
  }

  /** `Path.toString`: the names joined with the separator. */
  function PathString(p: Path, sep: char): string {
    Glob.JoinWith(p, sep)
  }

  lemma {:induction false} CommonPrefixOfExtension(base: Path, r: Path)
    ensures CommonPrefix(base, base + r) == |base|
  {
    if base != [] {
      assert (base + r)[0] == base[0];
      assert (base + r)[1..] == base[1..] + r;
      CommonPrefixOfExtension(base[1..], r);
    }
  }

  /** Relativizing a path resolved against the base gives back the relative part. */
  lemma RelativizeResolve(base: Path, r: Path)
    ensures Relativize(base, Resolve(base, r)) == r
  {
    CommonPrefixOfExtension(base, r);
    assert (base + r)[|base|..] == r;
  }

  /** A path under the base is the base resolved with its relativized form. */
  lemma ResolveRelativize(base: Path, p: Path)
    requires IsPrefix(base, p)
    ensures Resolve(base, Relativize(base, p)) == p
  {
    assert p == base + p[|base|..];
    RelativizeResolve(base, p[|base|..]);
  }

  /** A path outside the base comes out starting with `..`. */
  lemma RelativizeOutside(base: Path, p: Path)
    requires !IsPrefix(base, p)
    ensures var r := Relativize(base, p); r != [] && r[0] == ".."
  {
    var n := CommonPrefix(base, p);
    if n == |base| {
      assert false;
    }
  }
}
