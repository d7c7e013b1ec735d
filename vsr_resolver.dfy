/**
 * `VsrResolver`: the branch and version of the Versionr working copy
 * enclosing the solution, answering the tags `vsr`, `vsr-branch` and
 * `vsr-sha`.
 *
 * `vsr info --nocolours` is not run: its captured output is a parameter,
 * `None` standing for the null `ExecuteProcess` returns on a time-out.
 */
module VsrResolvers {
  import opened Wrappers
  import opened Text
  import opened Resolvers
  import opened ResolverUtils
  import opened Linq
  import Paths

  const BranchOpen: string := "on branch \""
  const VersionOpen: string := "Version "

  predicate IsBranchChar(c: char) { IsLower(c) || IsUpper(c) || IsDigit(c) || c == '_' || c == '-' }
  predicate IsVersionChar(c: char) { IsDigit(c) || ('a' <= c <= 'f') || ('A' <= c <= 'F') || c == '-' }

  /**
   * The regex `on branch "([a-zA-Z0-9_-]+)"` tried at position `i` only: the
   * greedy run cannot give back a `"`, so it matches exactly when the longest
   * run of branch characters after the opening quote is not empty and is
   * followed by the closing quote.
   */
  function BranchAt(line: string, i: nat): (r: Option<string>)
    requires i <= |line|
    ensures r.Some? ==> r.value != [] && StartsWith(line[i..], BranchOpen + r.value + "\"")
  {
    var rest := line[i..];
    if !StartsWith(rest, BranchOpen) then None
    else
      var name := TakeWhile(rest[|BranchOpen|..], IsBranchChar);
      if name != [] && |BranchOpen| + |name| < |rest| && rest[|BranchOpen| + |name|] == '"' then
        assert rest[..|BranchOpen| + |name| + 1] == BranchOpen + name + "\"";
        Some(name)
      else None
  }

  /** The regex `Version ([a-fA-F0-9-]+)` tried at position `i` only: the longest run after `Version `. */
  function VersionAt(line: string, i: nat): (r: Option<string>)
    requires i <= |line|
    ensures r.Some? ==> r.value != [] && StartsWith(line[i..], VersionOpen + r.value)
  {
    var rest := line[i..];
    if !StartsWith(rest, VersionOpen) then None
    else
      var run := TakeWhile(rest[|VersionOpen|..], IsVersionChar);
      if run == [] then None
      else
        assert rest[..|VersionOpen| + |run|] == VersionOpen + run;
        Some(run)
  }

  /** `Regex.Match` for the branch: the match at the leftmost position from `i` where there is one. */
  function FirstBranch(line: string, i: nat): (r: Option<string>)
    requires i <= |line|
    ensures r.None? <==> forall j :: i <= j <= |line| ==> BranchAt(line, j).None?
    decreases |line| - i
  {
    if BranchAt(line, i).Some? then BranchAt(line, i)
    else if i == |line| then None
    else FirstBranch(line, i + 1)
  }

  /** `Regex.Match` for the version: the match at the leftmost position from `i` where there is one. */
  function FirstVersion(line: string, i: nat): (r: Option<string>)
    requires i <= |line|
    ensures r.None? <==> forall j :: i <= j <= |line| ==> VersionAt(line, j).None?
    decreases |line| - i
  {
    if VersionAt(line, i).Some? then VersionAt(line, i)
    else if i == |line| then None
    else FirstVersion(line, i + 1)
  }

  /** The branch match is the one at the leftmost matching position. */
  lemma {:induction false} FirstBranchAt(line: string, i: nat, k: nat)
    requires i <= k <= |line| && BranchAt(line, k).Some?
    requires forall j :: i <= j < k ==> BranchAt(line, j).None?
    ensures FirstBranch(line, i) == BranchAt(line, k)
    decreases k - i
  {
    if i < k {
      FirstBranchAt(line, i + 1, k);
    }
  }

  /** `on branch "name"` matches with group `name` at its position. */
  lemma BranchAtOf(line: string, i: nat, name: string, rest: string)
    requires i <= |line| && line[i..] == BranchOpen + name + "\"" + rest
    requires name != [] && forall k :: 0 <= k < |name| ==> IsBranchChar(name[k])
    ensures BranchAt(line, i) == Some(name)
  {
    var tail := line[i..];
    assert tail[..|BranchOpen|] == BranchOpen;
    assert tail[|BranchOpen|..] == name + ("\"" + rest);
    TakeWhileOf(name, "\"" + rest, IsBranchChar);
  }

  /** `Version run` followed by a non-version character matches with group `run`. */
  lemma VersionAtOf(line: string, i: nat, run: string, rest: string)
    requires i <= |line| && line[i..] == VersionOpen + run + rest
    requires run != [] && forall k :: 0 <= k < |run| ==> IsVersionChar(run[k])
    requires rest == [] || !IsVersionChar(rest[0])
    ensures VersionAt(line, i) == Some(run)
  {
    var tail := line[i..];
    assert tail[..|VersionOpen|] == VersionOpen;
    assert tail[|VersionOpen|..] == run + rest;
    TakeWhileOf(run, rest, IsVersionChar);
  }

  /**
   * The header line `Version <v> on branch "<b>"...` of `vsr info` yields
   * the version `v` and the branch `b`: no earlier position matches
   * `on branch "`, because a version character is never `o` or `r`.
   */
  lemma HeaderLine(v: string, b: string, rest: string, line: string)
    requires line == VersionOpen + v + " " + BranchOpen + b + "\"" + rest
    requires v != [] && forall k :: 0 <= k < |v| ==> IsVersionChar(v[k])
    requires b != [] && forall k :: 0 <= k < |b| ==> IsBranchChar(b[k])
    ensures FirstVersion(line, 0) == Some(v)
    ensures FirstBranch(line, 0) == Some(b)
  {
    assert line[0..] == VersionOpen + v + (" " + BranchOpen + b + "\"" + rest);
    VersionAtOf(line, 0, v, " " + BranchOpen + b + "\"" + rest);
    var p := |VersionOpen| + |v| + 1;
    assert line[p..] == BranchOpen + b + "\"" + rest;
    BranchAtOf(line, p, b, rest);
    forall j | 0 <= j < p ensures BranchAt(line, j).None? {
      NoBranchBefore(v, b, rest, line, j);
    }
    FirstBranchAt(line, 0, p);
  }

  /** No position before the branch text starts a match of `on branch "`. */
  lemma NoBranchBefore(v: string, b: string, rest: string, line: string, j: nat)
    requires line == VersionOpen + v + " " + BranchOpen + b + "\"" + rest
    requires v != [] && forall k :: 0 <= k < |v| ==> IsVersionChar(v[k])
    requires j < |VersionOpen| + |v| + 1
    ensures BranchAt(line, j).None?
  {
    var head := VersionOpen + v + " ";
    assert line == head + (BranchOpen + b + "\"" + rest);
    if j == 5 {
      assert line[9] == head[9];
      if |v| >= 2 {
        assert head[9] == v[1];
      }
      NoOpenAt(line, j, 4);
    } else {
      assert line[j] == head[j];
      if 8 <= j < |head| - 1 {
        assert head[j] == v[j - 8];
      }
      NoOpenAt(line, j, 0);
    }
  }

  /** A position whose `n`-th character differs from that of `on branch "` starts no branch match. */
  lemma NoOpenAt(line: string, j: nat, n: nat)
    requires j + n < |line| && n < |BranchOpen| && line[j + n] != BranchOpen[n]
    ensures BranchAt(line, j).None?
  {
    var tail := line[j..];
    if |tail| >= |BranchOpen| {
      assert tail[..|BranchOpen|][n] == line[j + n];
    }
  }

  /** The first line of a non-empty `vsr info` output, `SplitIntoLines` taken as `Lines`. */
  function HeadLine(info: string): string {
    Lines(info)[0]
  }

  class VsrResolver {
    /** The `.versionr` directory found for the open solution. */
    var vsrPath: Option<Directory>
    var vsrBranch: Option<string>
    var vsrSha: Option<string>
    /** Whether the file watcher on `vsrPath` raises events. */
    var watching: bool
    /** How many `Changed` events have been raised. */
    var changedCount: nat

    constructor()
      ensures vsrPath.None? && vsrBranch.None? && vsrSha.None? && !watching && changedCount == 0
      ensures !Available()
    {
      vsrPath := None;
      vsrBranch := None;
      vsrSha := None;
      watching := false;
      changedCount := 0;
    }

    /** `Available`: the solution is inside a working copy. */
    predicate Available()
      reads this
    {
      vsrPath.Some?
    }

    /** `SatisfiesPredicateImpl`: `vsr` always holds; `vsr-branch` and `vsr-sha` glob their field; anything else is false. */
    function SatisfiesPredicateImpl(tag: string, value: string): (r: Result<bool>)
      reads this
      ensures tag == "vsr" ==> r == Ok(true)
      ensures tag == "vsr-branch" ==> r == GlobMatch(Some(value), vsrBranch)
      ensures tag == "vsr-sha" ==> r == GlobMatch(Some(value), vsrSha)
      ensures tag != "vsr" && tag != "vsr-branch" && tag != "vsr-sha" ==> r == Ok(false)
    {
      if tag == "vsr" then Ok(true)
      else if tag == "vsr-branch" then GlobMatch(Some(value), vsrBranch)
      else if tag == "vsr-sha" then GlobMatch(Some(value), vsrSha)
      else Ok(false)
    }

    /** `Resolve`: `vsr-branch` and `vsr-sha` give their field, anything else `""`. */
    function Resolve(tag: string): (r: Option<string>)
      reads this
      ensures tag == "vsr-branch" ==> r == vsrBranch
      ensures tag == "vsr-sha" ==> r == vsrSha
      ensures tag != "vsr-branch" && tag != "vsr-sha" ==> r == Some("")
    {
      if tag == "vsr-branch" then vsrBranch
      else if tag == "vsr-sha" then vsrSha
      else Some("")
    }

    /**
     * `ReadInfo`: nothing for a null or empty output; otherwise the first
     * line's branch replaces the held one when it differs, its version
     * always replaces the held one, and `Changed` is raised once when either
     * happened.
     */
    method ReadInfo(info: Option<string>)
      modifies this
      ensures info.None? || info == Some("") ==>
        vsrBranch == old(vsrBranch) && vsrSha == old(vsrSha) && changedCount == old(changedCount)
      ensures info.Some? && info.value != [] ==>
        var branch := FirstBranch(HeadLine(info.value), 0);
        var version := FirstVersion(HeadLine(info.value), 0);
        vsrBranch == (if branch.Some? then branch else old(vsrBranch)) &&
        vsrSha == (if version.Some? then version else old(vsrSha)) &&
        changedCount == old(changedCount) +
          if (branch.Some? && branch != old(vsrBranch)) || version.Some? then 1 else 0
      ensures vsrPath == old(vsrPath) && watching == old(watching)
    {
      if info.None? || info.value == [] {
        return;
      }
      var line := HeadLine(info.value);
      var changed := false;
      var branch := FirstBranch(line, 0);
      if branch.Some? && vsrBranch != branch {
        vsrBranch := branch;
        changed := true;
      }
      var version := FirstVersion(line, 0);
      if version.Some? {
        vsrSha := version;
        changed := true;
      }
      if changed {
        changedCount := changedCount + 1;
      }
    }

    /**
     * `OnBeforeSolutionOpened`: `new FileInfo` throws on a null or empty
     * path; otherwise the `.versionr` directory under the outermost ancestor
     * of the solution's directory that has one, and when there is one the
     * watcher starts and the information is read.
     */
    method OnBeforeSolutionOpened(solutionFilepath: Option<string>, tree: Tree, info: Option<string>)
      returns (thrown: Option<Exception>)
      modifies this
      ensures solutionFilepath.None? ==> thrown == Some(ArgumentNull)
      ensures solutionFilepath == Some("") ==> thrown == Some(Argument)
      ensures solutionFilepath.Some? && solutionFilepath.value != [] ==> thrown.None?
      ensures solutionFilepath.None? || solutionFilepath == Some("") ==>
        vsrPath == old(vsrPath) && vsrBranch == old(vsrBranch) && vsrSha == old(vsrSha) &&
        watching == old(watching) && changedCount == old(changedCount)
      ensures solutionFilepath.Some? && solutionFilepath.value != [] ==>
        vsrPath == FindMarker(tree, Reverse(Pushed(ContainingDirectory(Paths.Segments(solutionFilepath.value)))), ".versionr")
      ensures vsrPath.None? ==>
        vsrBranch == old(vsrBranch) && vsrSha == old(vsrSha) && watching == old(watching) && changedCount == old(changedCount)
      ensures solutionFilepath.Some? && solutionFilepath.value != [] && vsrPath.Some? ==> watching
      ensures solutionFilepath.Some? && solutionFilepath.value != [] && vsrPath.Some? && (info.None? || info == Some("")) ==>
        vsrBranch == old(vsrBranch) && vsrSha == old(vsrSha) && changedCount == old(changedCount)
      ensures solutionFilepath.Some? && solutionFilepath.value != [] && vsrPath.Some? && info.Some? && info.value != [] ==>
        var branch := FirstBranch(HeadLine(info.value), 0);
        var version := FirstVersion(HeadLine(info.value), 0);
        vsrBranch == (if branch.Some? then branch else old(vsrBranch)) &&
        vsrSha == (if version.Some? then version else old(vsrSha)) &&
        changedCount == old(changedCount) +
          if (branch.Some? && branch != old(vsrBranch)) || version.Some? then 1 else 0
    {
      if solutionFilepath.None? {
        return Some(ArgumentNull);
      }
      if solutionFilepath.value == [] {
        return Some(Argument);
      }
      var solutionDir := ContainingDirectory(Paths.Segments(solutionFilepath.value));
      var dirs := GetAllParentDirectories(solutionDir);
      vsrPath := FindMarker(tree, dirs, ".versionr");
      if vsrPath.None? {
        return None;
      }
      watching := true;
      ReadInfo(info);
      return None;
    }

    /** `OnAfterSolutionClosed`: forget the working copy and stop the watcher; the values stay. */
    method OnAfterSolutionClosed()
      modifies this
      ensures vsrPath.None? && !watching && !Available()
      ensures vsrBranch == old(vsrBranch) && vsrSha == old(vsrSha) && changedCount == old(changedCount)
    {
      vsrPath := None;
      watching := false;
    }
  }
}
