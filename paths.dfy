/**
 * The parts of `System.IO.Path` and `FileInfo` the resolvers use, on Windows
 * paths: `\` and `/` both separate directories, and a drive letter ends in
 * `:`. Paths are taken as already normalised.
 */
module Paths {
  import opened Wrappers
  import opened Text

  predicate IsDirectorySeparator(c: char) { c == '\\' || c == '/' }

  /** A character that ends the directory part for `GetFileName`: a separator or the volume separator `:`. */
  predicate EndsDirectoryPart(c: char) { IsDirectorySeparator(c) || c == ':' }

  /** `Path.GetFileName`: everything after the last separator or `:`. */
  function FileName(p: string): (r: string)
    ensures |r| <= |p| && r == p[|p| - |r|..]
    ensures forall k :: 0 <= k < |r| ==> !EndsDirectoryPart(r[k])
    ensures |r| < |p| ==> EndsDirectoryPart(p[|p| - |r| - 1])
  {
    if p == [] || EndsDirectoryPart(p[|p| - 1]) then []
    else FileName(p[..|p| - 1]) + [p[|p| - 1]]
  }

  /** The index of the last `c` in `s`, if any. */
  function LastIndexOf(s: string, c: char): (r: Option<nat>)
    ensures r.Some? ==> r.value < |s| && s[r.value] == c && c !in s[r.value + 1..]
    ensures r.None? <==> c !in s
  {
    if s == [] then None
    else if s[|s| - 1] == c then Some(|s| - 1)
    else
      assert s == s[..|s| - 1] + [s[|s| - 1]];
      LastIndexOf(s[..|s| - 1], c)
  }

  /** A file name cut at its last `.`, when it has one. */
  function WithoutExtension(name: string): (r: string)
    ensures '.' !in name ==> r == name
    ensures '.' in name ==> |r| < |name| && name[..|r|] == r && name[|r|] == '.' && '.' !in name[|r| + 1..]
  {
    match LastIndexOf(name, '.')
    case None => name
    case Some(dot) => name[..dot]
  }

  /** `Path.GetFileNameWithoutExtension`. */
  function FileNameWithoutExtension(p: string): string {
    WithoutExtension(FileName(p))
  }

  /**
   * `GetRootLength`: 2 or 3 for a drive (`C:` or `C:\`), the whole
   * `\\server\share` of a UNC path, 1 for a leading separator, else 0.
   */
  function RootLength(p: string): (r: nat)
    ensures r <= |p|
  {
    if |p| >= 1 && IsDirectorySeparator(p[0]) then
      if |p| >= 2 && IsDirectorySeparator(p[1]) then UncRootEnd(p, 2, 2) else 1
    else if |p| >= 2 && p[1] == ':' then
      if |p| >= 3 && IsDirectorySeparator(p[2]) then 3 else 2
    else 0
  }

  /** The UNC scan: stops on the `n`-th separator from `i`, or at the end. */
  function UncRootEnd(p: string, i: nat, n: nat): (r: nat)
    requires i <= |p|
    ensures i <= r <= |p|
    ensures r < |p| ==> IsDirectorySeparator(p[r])
    decreases |p| - i
  {
    if i == |p| then i
    else if !IsDirectorySeparator(p[i]) then UncRootEnd(p, i + 1, n)
    else if n > 1 then UncRootEnd(p, i + 1, n - 1)
    else i
  }

  /**
   * The backward scan of `GetDirectoryName` from `i`: the last separator
   * at or after `root` and before `i`, or `root` when there is none.
   */
  function SeparatorScan(p: string, root: nat, i: nat): (r: nat)
    requires root <= i <= |p|
    ensures root <= r <= i && (r < i || r == root)
    ensures r > root ==> IsDirectorySeparator(p[r])
    ensures forall k :: r < k < i ==> !IsDirectorySeparator(p[k])
    decreases i
  {
    if i <= root then i
    else if IsDirectorySeparator(p[i - 1]) then i - 1
    else SeparatorScan(p, root, i - 1)
  }

  /**
   * `Path.GetDirectoryName`: null for null or a bare root; `""` is not a
   * legal path and throws; otherwise the text before the last separator,
   * never shorter than the root.
   */
  function DirectoryName(path: Option<string>): (r: Result<Option<string>>)
    ensures path.None? ==> r == Ok(None)
    ensures path == Some("") ==> r == Throw(Argument)
    ensures path.Some? && path.value != [] && |path.value| <= RootLength(path.value) ==> r == Ok(None)
    ensures r.Ok? && r.value.Some? ==>
      RootLength(path.value) <= |r.value.value| < |path.value| && StartsWith(path.value, r.value.value)
  {
    if path.None? then Ok(None)
    else if path.value == [] then Throw(Argument)
    else
      var p := path.value;
      var root := RootLength(p);
      if |p| <= root then Ok(None)
      else Ok(Some(p[..SeparatorScan(p, root, |p|)]))
  }

  /**
   * The directory part and the file name split the path around at most one
   * separator, when no `:` follows the root.
   */
  lemma DirectoryAndFileName(p: string, d: string)
    requires DirectoryName(Some(p)) == Ok(Some(d))
    requires forall k :: RootLength(p) <= k < |p| ==> p[k] != ':'
    ensures var f := FileName(p);
      |d| + |f| <= |p| <= |d| + |f| + 1 &&
      p[..|d|] == d && p[|p| - |f|..] == f &&
      (|p| == |d| + |f| + 1 ==> IsDirectorySeparator(p[|d|]))
  {
    var root := RootLength(p);
    var i := SeparatorScan(p, root, |p|);
    assert d == p[..i];
    var f := FileName(p);
    FileNameAfter(p, i, root);
  }

  /** `FileName` stops exactly at the separator the scan found (or at the root). */
  lemma FileNameAfter(p: string, i: nat, root: nat)
    requires root == RootLength(p) && root < |p|
    requires i == SeparatorScan(p, root, |p|)
    requires forall k :: root <= k < |p| ==> p[k] != ':'
    ensures |FileName(p)| == |p| - i - (if IsDirectorySeparator(p[i]) then 1 else 0)
  {
    if IsDirectorySeparator(p[i]) {
      FileNameFrom(p, i + 1);
    } else {
      RootEndsDirectoryPart(p);
      FileNameFrom(p, i);
    }
  }

  /** The file name is what follows the last separator or `:`. */
  lemma {:induction false} FileNameFrom(p: string, j: nat)
    requires j <= |p|
    requires forall k :: j <= k < |p| ==> !EndsDirectoryPart(p[k])
    requires j == 0 || EndsDirectoryPart(p[j - 1])
    ensures FileName(p) == p[j..]
    decreases |p| - j
  {
    if j < |p| {
      var q := p[..|p| - 1];
      FileNameFrom(q, j);
      assert p[j..] == q[j..] + [p[|p| - 1]];
    }
  }

  /** A non-empty root ends in a separator or `:`, or is a whole UNC prefix followed by a separator. */
  lemma RootEndsDirectoryPart(p: string)
    requires RootLength(p) < |p|
    requires !IsDirectorySeparator(p[RootLength(p)])
    ensures RootLength(p) == 0 || EndsDirectoryPart(p[RootLength(p) - 1])
  {
  }

  /**
   * `new FileInfo(path).Directory.FullName`: a null path throws
   * `ArgumentNullException`, `""` `ArgumentException`, and a root, which has
   * no directory, a `NullReferenceException` when its name is read.
   */
  function FileDirectoryName(path: Option<string>): (r: Result<string>)
    ensures path.None? ==> r == Throw(ArgumentNull)
    ensures path == Some("") ==> r == Throw(Argument)
    ensures r.Ok? ==> DirectoryName(path) == Ok(Some(r.value))
    ensures path.Some? && DirectoryName(path) == Ok(None) ==> r == Throw(NullReference)
  {
    if path.None? then Throw(ArgumentNull)
    else match DirectoryName(path)
      case Throw(e) => Throw(e)
      case Ok(None) => Throw(NullReference)
      case Ok(Some(d)) => Ok(d)
  }

  /** A path as its segments, split on both separators (`C:\src\a.sln` is `["C:", "src", "a.sln"]`). */
  function Segments(path: string): (r: seq<string>)
    ensures |r| >= 1
  {
    Split(seq(|path|, k requires 0 <= k < |path| => if path[k] == '/' then '\\' else path[k]), '\\')
  }
}
