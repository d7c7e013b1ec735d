/**
 * `GitResolver`: the branch, abbreviated commit hash and relative commit
 * time of the git repository enclosing the solution, answering the tags
 * `git`, `git-branch`, `git-sha` and `git-commit-time-relative`.
 *
 * The two `git` invocations are not run: their captured standard output is
 * a parameter, `None` standing for a null result or an exception.
 */
module GitResolvers {
  import opened Wrappers
  import opened Text
  import opened Resolvers
  import opened ResolverUtils
  import opened Linq
  import Paths

  const GitTags: seq<string> := ["git", "git-branch", "git-sha", "git-commit-time-relative"]

  /**
   * The output of `show -s --format="%h|%cr" HEAD` split on `|`, each piece
   * trimmed: the first two pieces are the hash and the relative time. A null
   * output or one with a single piece throws; `None` stands for that.
   */
  function CommitInfo(output: Option<string>): (r: Option<(string, string)>)
    ensures output.None? ==> r.None?
  {
    if output.None? then None
    else
      var fields := Split(output.value, '|');
      if |fields| < 2 then None else Some((Trim(fields[0]), Trim(fields[1])))
  }

  /** The output is refused exactly when it holds no `|`. */
  lemma CommitInfoRefused(output: string)
    ensures CommitInfo(Some(output)).None? <==> '|' !in output
  {
    if '|' !in output {
      SplitNoDelimiter(output, '|');
    } else if |Split(output, '|')| < 2 {
      JoinSplit(output, '|');
    }
  }

  /** `hash|time` (the time free of further `|`) reads back as the trimmed hash and time. */
  lemma CommitInfoOf(sha: string, time: string, output: string)
    requires '|' !in sha && '|' !in time && output == sha + ['|'] + time
    ensures CommitInfo(Some(output)) == Some((Trim(sha), Trim(time)))
  {
    SplitAppend(sha, time, '|');
    SplitNoDelimiter(time, '|');
    assert Split(output, '|') == [sha, time];
  }

  class GitResolver {
    /** `git.exe` found on `PATH` when the resolver was built, or null. */
    const gitExePath: Option<string>
    /** The `.git` directory found for the open solution. */
    var gitPath: Option<Directory>
    var gitBranch: Option<string>
    var gitSha: Option<string>
    var gitCommitTimeRelative: Option<string>
    /** Whether the file watcher on `gitPath` raises events. */
    var watching: bool
    /** How many `Changed` events have been raised. */
    var changedCount: nat

    /** The constructor; the `PATH` scan is its argument. Nothing is known yet. */
    constructor(exePath: Option<string>)
      ensures gitExePath == exePath
      ensures gitPath.None? && gitBranch.None? && gitSha.None? && gitCommitTimeRelative.None?
      ensures !watching && changedCount == 0
      ensures !Available()
    {
      gitExePath := exePath;
      gitPath := None;
      gitBranch := None;
      gitSha := None;
      gitCommitTimeRelative := None;
      watching := false;
      changedCount := 0;
    }

    /** `Available`: `git.exe` was found and the solution is inside a repository. */
    predicate Available()
      reads this
    {
      gitExePath.Some? && gitPath.Some?
    }

    /**
     * `SatisfiesPredicateImpl`: `git-branch` and `git-sha` glob the value
     * against the branch and the hash, `git` is availability, anything else
     * false.
     */
    function SatisfiesPredicateImpl(tag: string, value: string): (r: Result<bool>)
      reads this
      ensures tag == "git" ==> r == Ok(Available())
      ensures tag == "git-branch" ==> r == GlobMatch(Some(value), gitBranch)
      ensures tag == "git-sha" ==> r == GlobMatch(Some(value), gitSha)
      ensures tag != "git" && tag != "git-branch" && tag != "git-sha" ==> r == Ok(false)
    {
      if tag == "git-branch" then GlobMatch(Some(value), gitBranch)
      else if tag == "git-sha" then GlobMatch(Some(value), gitSha)
      else if tag == "git" then Ok(Available())
      else Ok(false)
    }

    /** `Resolve`: the three text tags give their field, anything else `""`. */
    function Resolve(tag: string): (r: Option<string>)
      reads this
      ensures tag == "git-branch" ==> r == gitBranch
      ensures tag == "git-sha" ==> r == gitSha
      ensures tag == "git-commit-time-relative" ==> r == gitCommitTimeRelative
      ensures tag != "git-branch" && tag != "git-sha" && tag != "git-commit-time-relative" ==> r == Some("")
    {
      if tag == "git-branch" then gitBranch
      else if tag == "git-sha" then gitSha
      else if tag == "git-commit-time-relative" then gitCommitTimeRelative
      else Some("")
    }

    /**
     * `ReadInfo`: the branch is the trimmed output of `symbolic-ref`; the hash
     * and time come from `show`, which runs only once the branch was read.
     * Any failure lands in the catch-all, which blanks hash and time but
     * keeps whatever branch was already assigned.
     */
    method ReadInfo(branchOutput: Option<string>, infoOutput: Option<string>)
      modifies this
      ensures gitBranch == if branchOutput.Some? then Some(Trim(branchOutput.value)) else old(gitBranch)
      ensures branchOutput.None? || CommitInfo(infoOutput).None? ==> gitSha == Some("") && gitCommitTimeRelative == Some("")
      ensures branchOutput.Some? && CommitInfo(infoOutput).Some? ==>
        gitSha == Some(CommitInfo(infoOutput).value.0) && gitCommitTimeRelative == Some(CommitInfo(infoOutput).value.1)
      ensures gitPath == old(gitPath) && watching == old(watching) && changedCount == old(changedCount)
    {
      if branchOutput.None? {
        gitSha := Some("");
        gitCommitTimeRelative := Some("");
        return;
      }
      gitBranch := Some(Trim(branchOutput.value));
      var info := CommitInfo(infoOutput);
      if info.None? {
        gitSha := Some("");
        gitCommitTimeRelative := Some("");
      } else {
        gitSha := Some(info.value.0);
        gitCommitTimeRelative := Some(info.value.1);
      }
    }

    /**
     * `OnBeforeSolutionOpened`: nothing for a null or empty path; otherwise
     * the `.git` directory under the outermost ancestor of the solution's
     * directory that has one (the enumeration is outermost first); when there
     * is one the watcher starts and the information is read.
     */
    method OnBeforeSolutionOpened(solutionFilepath: Option<string>, tree: Tree,
                                  branchOutput: Option<string>, infoOutput: Option<string>)
      modifies this
      ensures solutionFilepath.None? || solutionFilepath.value == [] ==>
        gitPath == old(gitPath) && gitBranch == old(gitBranch) && gitSha == old(gitSha) &&
        gitCommitTimeRelative == old(gitCommitTimeRelative) && watching == old(watching)
      ensures solutionFilepath.Some? && solutionFilepath.value != [] ==>
        gitPath == FindMarker(tree, Reverse(Pushed(ContainingDirectory(Paths.Segments(solutionFilepath.value)))), ".git")
      ensures solutionFilepath.Some? && solutionFilepath.value != [] && gitPath.None? ==>
        gitBranch == old(gitBranch) && gitSha == old(gitSha) &&
        gitCommitTimeRelative == old(gitCommitTimeRelative) && watching == old(watching)
      ensures solutionFilepath.Some? && solutionFilepath.value != [] && gitPath.Some? ==> watching
      ensures solutionFilepath.Some? && solutionFilepath.value != [] && gitPath.Some? ==>
        gitBranch == (if branchOutput.Some? then Some(Trim(branchOutput.value)) else old(gitBranch))
      ensures (solutionFilepath.Some? && solutionFilepath.value != [] && gitPath.Some? &&
               (branchOutput.None? || CommitInfo(infoOutput).None?)) ==>
        gitSha == Some("") && gitCommitTimeRelative == Some("")
      ensures (solutionFilepath.Some? && solutionFilepath.value != [] && gitPath.Some? &&
               branchOutput.Some? && CommitInfo(infoOutput).Some?) ==>
        gitSha == Some(CommitInfo(infoOutput).value.0) && gitCommitTimeRelative == Some(CommitInfo(infoOutput).value.1)
      ensures changedCount == old(changedCount)
    {
      if solutionFilepath.None? || solutionFilepath.value == [] {
        return;
      }
      var solutionDir := ContainingDirectory(Paths.Segments(solutionFilepath.value));
      var dirs := GetAllParentDirectories(solutionDir);
      gitPath := FindMarker(tree, dirs, ".git");
      if gitPath.Some? {
        watching := true;
        ReadInfo(branchOutput, infoOutput);
      }
    }

    /** `OnAfterSolutionClosed`: forget the repository and stop the watcher; the last values stay. */
    method OnAfterSolutionClosed()
      modifies this
      ensures gitPath.None? && !watching && !Available()
      ensures gitBranch == old(gitBranch) && gitSha == old(gitSha)
      ensures gitCommitTimeRelative == old(gitCommitTimeRelative) && changedCount == old(changedCount)
    {
      gitPath := None;
      watching := false;
    }

    /** `OnGitFolderChanged`: read the information again and raise `Changed`. */
    method OnGitFolderChanged(branchOutput: Option<string>, infoOutput: Option<string>)
      modifies this
      ensures gitBranch == if branchOutput.Some? then Some(Trim(branchOutput.value)) else old(gitBranch)
      ensures branchOutput.None? || CommitInfo(infoOutput).None? ==> gitSha == Some("") && gitCommitTimeRelative == Some("")
      ensures branchOutput.Some? && CommitInfo(infoOutput).Some? ==>
        gitSha == Some(CommitInfo(infoOutput).value.0) && gitCommitTimeRelative == Some(CommitInfo(infoOutput).value.1)
      ensures gitPath == old(gitPath) && watching == old(watching)
      ensures changedCount == old(changedCount) + 1
    {
      ReadInfo(branchOutput, infoOutput);
      changedCount := changedCount + 1;
    }
  }
}
