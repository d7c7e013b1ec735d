/**
 * `SvnResolver`: the repository URL of the Subversion working copy
 * enclosing the solution, answering the tags `svn` and `svn-url`.
 *
 * `svn info` is not run: its captured output is a parameter, `None`
 * standing for the null `ExecuteProcess` returns when the process times out.
 */
module SvnResolvers {
  import opened Wrappers
  import opened Text
  import opened Resolvers
  import opened ResolverUtils
  import opened Linq
  import Paths

  const UrlPrefix: string := "URL: "

  /**
   * `Where(x => x.StartsWith("URL: ")).Select(x => x.Substring(5)).FirstOrDefault()`
   * over `lines[i..]`: the rest of the first line that starts with `URL: `.
   */
  function FirstUrl(lines: seq<string>, i: nat): (r: Option<string>)
    requires i <= |lines|
    ensures r.None? <==> forall k :: i <= k < |lines| ==> !StartsWith(lines[k], UrlPrefix)
    decreases |lines| - i
  {
    if i == |lines| then None
    else if StartsWith(lines[i], UrlPrefix) then Some(lines[i][|UrlPrefix|..])
    else FirstUrl(lines, i + 1)
  }

  /** The URL is read from the first `URL: ` line, whatever later lines say. */
  lemma {:induction false} FirstUrlAt(lines: seq<string>, i: nat, k: nat, url: string)
    requires i <= k < |lines| && lines[k] == UrlPrefix + url
    requires forall j :: i <= j < k ==> !StartsWith(lines[j], UrlPrefix)
    ensures FirstUrl(lines, i) == Some(url)
    decreases k - i
  {
    if i < k {
      FirstUrlAt(lines, i + 1, k, url);
    } else {
      assert lines[k][..|UrlPrefix|] == UrlPrefix;
    }
  }

  /** The URL an `svn info` output names, `SplitIntoLines` taken as `Lines`. */
  function InfoUrl(info: string): Option<string> {
    FirstUrl(Lines(info), 0)
  }

  class SvnResolver {
    /** The `.svn` directory found for the open solution. */
    var svnPath: Option<Directory>
    var svnUrl: Option<string>
    /** Whether the file watcher on `svnPath` raises events. */
    var watching: bool
    /** How many `Changed` events have been raised. */
    var changedCount: nat

    constructor()
      ensures svnPath.None? && svnUrl.None? && !watching && changedCount == 0
      ensures !Available()
    {
      svnPath := None;
      svnUrl := None;
      watching := false;
      changedCount := 0;
    }

    /** `Available`: the solution is inside a working copy. */
    predicate Available()
      reads this
    {
      svnPath.Some?
    }

    /** `SatisfiesPredicateImpl`: `svn` always holds, `svn-url` globs the URL, anything else is false. */
    function SatisfiesPredicateImpl(tag: string, value: string): (r: Result<bool>)
      reads this
      ensures tag == "svn" ==> r == Ok(true)
      ensures tag == "svn-url" ==> r == GlobMatch(Some(value), svnUrl)
      ensures tag != "svn" && tag != "svn-url" ==> r == Ok(false)
    {
      if tag == "svn" then Ok(true)
      else if tag == "svn-url" then GlobMatch(Some(value), svnUrl)
      else Ok(false)
    }

    /** `Resolve`: `svn-url` gives the URL, anything else `""`. */
    function Resolve(tag: string): (r: Option<string>)
      reads this
      ensures tag == "svn-url" ==> r == svnUrl
      ensures tag != "svn-url" ==> r == Some("")
    {
      if tag == "svn-url" then svnUrl else Some("")
    }

    /**
     * `ReadInfo`: a null output throws when it is split into lines;
     * otherwise the URL becomes the one the output names (null when none),
     * and `Changed` is raised when that differs from the URL held before.
     */
    method ReadInfo(info: Option<string>) returns (thrown: Option<Exception>)
      modifies this
      ensures info.None? ==> thrown == Some(NullReference) && svnUrl == old(svnUrl) && changedCount == old(changedCount)
      ensures info.Some? ==> thrown.None? && svnUrl == InfoUrl(info.value)
      ensures info.Some? ==> changedCount == old(changedCount) + if old(svnUrl) != svnUrl then 1 else 0
      ensures svnPath == old(svnPath) && watching == old(watching)
    {
      if info.None? {
        return Some(NullReference);
      }
      var newUrl := InfoUrl(info.value);
      if svnUrl != newUrl {
        svnUrl := newUrl;
        changedCount := changedCount + 1;
      }
      return None;
    }

    /**
     * `OnBeforeSolutionOpened`: `new FileInfo` throws on a null or empty path;
     * otherwise the `.svn` directory under the outermost ancestor of the
     * solution's directory that has one, and when there is one the watcher
     * starts and the URL is read, whose exception escapes the handler.
     */
    method OnBeforeSolutionOpened(solutionFilepath: Option<string>, tree: Tree, info: Option<string>)
      returns (thrown: Option<Exception>)
      modifies this
      ensures solutionFilepath.None? ==> thrown == Some(ArgumentNull)
      ensures solutionFilepath == Some("") ==> thrown == Some(Argument)
      ensures solutionFilepath.None? || solutionFilepath == Some("") ==>
        svnPath == old(svnPath) && svnUrl == old(svnUrl) && watching == old(watching) && changedCount == old(changedCount)
      ensures solutionFilepath.Some? && solutionFilepath.value != [] ==>
        svnPath == FindMarker(tree, Reverse(Pushed(ContainingDirectory(Paths.Segments(solutionFilepath.value)))), ".svn")
      ensures solutionFilepath.Some? && solutionFilepath.value != [] && svnPath.None? ==>
        thrown.None? && svnUrl == old(svnUrl) && watching == old(watching) && changedCount == old(changedCount)
      ensures solutionFilepath.Some? && solutionFilepath.value != [] && svnPath.Some? ==>
        watching && (thrown.Some? <==> info.None?)
      ensures solutionFilepath.Some? && solutionFilepath.value != [] && svnPath.Some? && info.None? ==>
        thrown == Some(NullReference) && svnUrl == old(svnUrl) && changedCount == old(changedCount)
      ensures solutionFilepath.Some? && solutionFilepath.value != [] && svnPath.Some? && info.Some? ==>
        svnUrl == InfoUrl(info.value) &&
        changedCount == old(changedCount) + if old(svnUrl) != svnUrl then 1 else 0
    {
      if solutionFilepath.None? {
        return Some(ArgumentNull);
      }
      if solutionFilepath.value == [] {
        return Some(Argument);
      }
      var solutionDir := ContainingDirectory(Paths.Segments(solutionFilepath.value));
      var dirs := GetAllParentDirectories(solutionDir);
      svnPath := FindMarker(tree, dirs, ".svn");
      thrown := None;
      if svnPath.Some? {
        watching := true;
        thrown := ReadInfo(info);
      }
    }

    /** `OnAfterSolutionClosed`: forget the working copy and stop the watcher; the URL stays. */
    method OnAfterSolutionClosed()
      modifies this
      ensures svnPath.None? && !watching && !Available()
      ensures svnUrl == old(svnUrl) && changedCount == old(changedCount)
    {
      svnPath := None;
      watching := false;
    }

    /**
     * `SvnFolderChanged`: read the URL again, then raise `Changed` once more
     * unconditionally, unless reading threw.
     */
    method SvnFolderChanged(info: Option<string>) returns (thrown: Option<Exception>)
      modifies this
      ensures info.None? ==> thrown == Some(NullReference) && svnUrl == old(svnUrl) && changedCount == old(changedCount)
      ensures info.Some? ==> thrown.None? && svnUrl == InfoUrl(info.value)
      ensures info.Some? ==> changedCount == old(changedCount) + 1 + if old(svnUrl) != svnUrl then 1 else 0
      ensures svnPath == old(svnPath) && watching == old(watching)
    {
      thrown := ReadInfo(info);
      if thrown.None? {
        changedCount := changedCount + 1;
      }
    }
  }
}
