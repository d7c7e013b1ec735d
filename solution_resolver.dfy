/**
 * `SolutionResolver`: the open solution's name and location, answering the
 * tags `solution`, `item-name`, `solution-name`, `solution-path` and the
 * `path(a, b)` slice of the solution's directory.
 *
 * The two solution properties the open handler reads from the IDE are its
 * parameters; `None` stands for a property that is not a string.
 */
module SolutionResolvers {
  import opened Wrappers
  import opened Text
  import opened Resolvers
  import Paths
  import SplitFunction

  class SolutionResolver {
    var solutionName: Option<string>
    var solutionFilepath: Option<string>

    /** A new resolver: no solution is known. */
    constructor()
      ensures solutionName.None? && solutionFilepath.None?
      ensures !Available()
    {
      solutionName := None;
      solutionFilepath := None;
    }

    /** `Available`: both the name and the file path are neither null nor empty. */
    predicate Available()
      reads this
    {
      solutionName.Some? && solutionName.value != [] && solutionFilepath.Some? && solutionFilepath.value != []
    }

    /** `ResolvableImpl`: only when the IDE has a solution object. */
    predicate Resolvable(ctx: Context) {
      ctx.solution.Some?
    }

    /**
     * `Resolve`: a tag starting with `path` slices the directory of the
     * solution file (a null, empty or root path throws when the directory is
     * built); the name tags give the solution's file name without extension
     * when the IDE reports a full name; `solution-path` gives the name of the
     * folder holding the solution file followed by `\` (a missing solution
     * object throws, an empty file name is an illegal path); anything else
     * throws `InvalidOperationException`.
     */
    function Resolve(ctx: Context, tag: string): (r: Result<Option<string>>)
      reads this
      ensures StartsWith(tag, "path") && Paths.FileDirectoryName(solutionFilepath).Throw? ==>
        r == Throw(Paths.FileDirectoryName(solutionFilepath).error)
      ensures StartsWith(tag, "path") && Paths.FileDirectoryName(solutionFilepath).Ok? ==>
        var p := SplitFunction.Parse("path", '\\', tag, Paths.FileDirectoryName(solutionFilepath).value);
        (p.Ok? ==> r == Ok(Some(p.value))) && (p.Throw? ==> r == Throw(p.error))
      ensures (!StartsWith(tag, "path") && (tag == "solution-name" || tag == "item-name") &&
               ctx.solution.Some? && ctx.solution.value.fullName.Some?) ==>
        r == Ok(Some(Paths.FileNameWithoutExtension(ctx.solution.value.fullName.value)))
      ensures tag == "solution-path" && ctx.solution.None? ==> r == Throw(NullReference)
      ensures tag == "solution-path" && ctx.solution.Some? && ctx.solution.value.fileName.None? ==> r == Ok(Some("\\"))
      ensures tag == "solution-path" && ctx.solution.Some? && ctx.solution.value.fileName == Some("") ==> r == Throw(Argument)
      ensures (!StartsWith(tag, "path") && tag != "solution-name" && tag != "item-name" &&
               tag != "solution-path") ==> r == Throw(InvalidOperation)
      ensures (!StartsWith(tag, "path") && (tag == "solution-name" || tag == "item-name") &&
               (ctx.solution.None? || ctx.solution.value.fullName.None?)) ==> r == Throw(InvalidOperation)
    {
      assert tag == "solution-path" ==> tag[0] != "path"[0];
      assert FolderName(None) + "\\" == "\\";
      if StartsWith(tag, "path") then
        var dir :- Paths.FileDirectoryName(solutionFilepath);
        var sliced :- SplitFunction.Parse("path", '\\', tag, dir);
        Ok(Some(sliced))
      else if (tag == "solution-name" || tag == "item-name") && ctx.solution.Some? && ctx.solution.value.fullName.Some? then
        Ok(Some(Paths.FileNameWithoutExtension(ctx.solution.value.fullName.value)))
      else if tag == "solution-path" then
        if ctx.solution.None? then Throw(NullReference)
        else
          var dir :- Paths.DirectoryName(ctx.solution.value.fileName);
          Ok(Some(FolderName(dir) + "\\"))
      else Throw(InvalidOperation)
    }

    /**
     * `SatisfiesPredicateImpl`: `solution` always holds, the name tags glob
     * the solution name, `solution-path` globs the file path, anything else
     * is false.
     */
    function SatisfiesPredicateImpl(tag: string, value: string): (r: Result<bool>)
      reads this
      ensures tag == "solution" ==> r == Ok(true)
      ensures tag == "solution-name" || tag == "item-name" ==> r == GlobMatch(Some(value), solutionName)
      ensures tag == "solution-path" ==> r == GlobMatch(Some(value), solutionFilepath)
      ensures tag != "solution" && tag != "solution-name" && tag != "item-name" && tag != "solution-path" ==>
        r == Ok(false)
    {
      if tag == "solution" then Ok(true)
      else if tag == "solution-name" || tag == "item-name" then GlobMatch(Some(value), solutionName)
      else if tag == "solution-path" then GlobMatch(Some(value), solutionFilepath)
      else Ok(false)
    }

    /** `OnAfterOpenSolution`: record the base name and file path the IDE reports. */
    method OnAfterOpenSolution(baseName: Option<string>, filepath: Option<string>)
      modifies this
      ensures solutionName == baseName && solutionFilepath == filepath
      ensures Available() <==> baseName.Some? && baseName.value != [] && filepath.Some? && filepath.value != []
    {
      solutionName := baseName;
      solutionFilepath := filepath;
    }

    /** `OnAfterSolutionClosed`: forget the solution. */
    method OnAfterSolutionClosed()
      modifies this
      ensures solutionName.None? && solutionFilepath.None?
      ensures !Available()
    {
      solutionName := None;
      solutionFilepath := None;
    }
  }

  /** `Path.GetFileName` of a possibly null directory, taking null as `""` when it is concatenated. */
  function FolderName(dir: Option<string>): string {
    if dir.None? then "" else Paths.FileName(dir.value)
  }

  /** A solution file `dir\stem.ext` has the name `stem`, whatever the directory. */
  lemma SolutionNameOf(dir: string, stem: string, ext: string)
    requires forall k :: 0 <= k < |stem| ==> !Paths.EndsDirectoryPart(stem[k])
    requires forall k :: 0 <= k < |ext| ==> !Paths.EndsDirectoryPart(ext[k]) && ext[k] != '.'
    ensures Paths.FileNameWithoutExtension(dir + "\\" + stem + "." + ext) == stem
  {
    var p := dir + "\\" + stem + "." + ext;
    var j := |dir| + 1;
    Paths.FileNameFrom(p, j);
    var name := stem + "." + ext;
    assert Paths.FileName(p) == name;
    var r := Paths.WithoutExtension(name);
    assert name[|stem|] == '.';
  }

  /**
   * `solution-path` names the folder that holds the solution file:
   * for `dir\folder\file` it is `folder\`, whatever `dir` is, as long as the
   * path's root does not reach into `folder`.
   */
  lemma SolutionPathOf(sr: SolutionResolver, ctx: Context, dir: string, folder: string, file: string)
    requires folder != []
    requires forall k :: 0 <= k < |folder| ==> !Paths.EndsDirectoryPart(folder[k])
    requires forall k :: 0 <= k < |file| ==> !Paths.EndsDirectoryPart(file[k])
    requires ctx.solution.Some? && ctx.solution.value.fileName == Some(dir + "\\" + folder + "\\" + file)
    requires Paths.RootLength(dir + "\\" + folder + "\\" + file) <= |dir| + 1
    ensures sr.Resolve(ctx, "solution-path") == Ok(Some(folder + "\\"))
  {
    var p := dir + "\\" + folder + "\\" + file;
    var q := dir + "\\" + folder;
    assert p == q + "\\" + file;
    var s := Paths.SeparatorScan(p, Paths.RootLength(p), |p|);
    assert p[|q|] == '\\';
    if s < |q| {
      assert Paths.IsDirectorySeparator(p[|q|]);
    }
    assert s == |q|;
    assert p[..s] == q;
    assert Paths.DirectoryName(Some(p)) == Ok(Some(q));
    Paths.FileNameFrom(q, |dir| + 1);
    assert q[|dir| + 1..] == folder;
    assert "solution-path"[0] != "path"[0];
  }
}
