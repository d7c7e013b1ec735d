/**
 * The two IDE resolvers, answering `ide-name` and `ide-mode`: Shellbent's,
 * which tracks the debugger mode and raises `Changed` when it moves, and
 * TitleBarNone's, which reports every mode change and the start-up and
 * shut-down of the IDE to a callback. The callback's invocations are kept as
 * a log.
 */
module IdeResolvers {
  import opened Wrappers
  import opened Resolvers
  import Parsing

  const IdeName: string := "Microsoft Visual Studio"

  /** `GetModeTitle` (identical in both resolvers): design mode has no title, the others one each. */
  function ModeTitle(mode: Mode): (r: string)
    ensures r == [] <==> mode == DesignMode
    ensures mode == RunMode ==> r == "(Running)"
    ensures mode == BreakMode ==> r == "(Debugging)"
  {
    if mode == DesignMode then ""
    else if mode == RunMode then "(Running)"
    else "(Debugging)"
  }

  /** Shellbent's `IDEResolver`. */
  class IdeResolver {
    /** The last mode reported by the IDE model. */
    var vsMode: Mode
    /** How many `Changed` events have been raised. */
    var changedCount: nat

    /** The constructor reads the IDE model's current mode. */
    constructor(modelMode: Mode)
      ensures vsMode == modelMode && changedCount == 0
    {
      vsMode := modelMode;
      changedCount := 0;
    }

    /** `Available`: always. */
    function Available(): (r: bool)
      ensures r
    {
      true
    }

    /** `ResolvableImpl`: `ide-mode` only outside design mode, i.e. when its title is not empty; any other tag always. */
    static function Resolvable(ctx: Context, tag: string): (r: bool)
      ensures tag == "ide-mode" ==> (r <==> Resolve(ctx, tag) != [])
      ensures tag != "ide-mode" ==> r
    {
      tag != "ide-mode" || ctx.mode != DesignMode
    }

    /** `Resolve`: the product name, the title of the mode in the state queried (not the stored one), or `""`. */
    static function Resolve(ctx: Context, tag: string): (r: string)
      ensures tag == "ide-name" ==> r == IdeName
      ensures tag == "ide-mode" ==> r == ModeTitle(ctx.mode)
      ensures tag != "ide-name" && tag != "ide-mode" ==> r == []
    {
      if tag == "ide-name" then IdeName
      else if tag == "ide-mode" then ModeTitle(ctx.mode)
      else ""
    }

    /** `OnModeChanged`: a different mode is stored and raises `Changed`; the same mode again does nothing. */
    method OnModeChanged(mode: Mode)
      modifies this
      ensures vsMode == mode
      ensures changedCount == old(changedCount) + if mode != old(vsMode) then 1 else 0
    {
      if mode != vsMode {
        vsMode := mode;
        changedCount := changedCount + 1;
      }
    }
  }

  /** Why TitleBarNone's resolver called back. */
  datatype CallbackReason = StartupComplete | ModeChanged | ShutdownInitiated

  /** One callback invocation: the reason and the `IDEState` passed with it. */
  datatype Callback = Callback(reason: CallbackReason, mode: Mode)

  const IdeTags: seq<string> := ["ide-name", "ide-mode"]

  /** TitleBarNone's `IDEResolver`. */
  class TitleBarNoneIdeResolver {
    /** `m_VsMode`. */
    var vsMode: Mode
    /** The invocations of `m_Callback`, oldest first. */
    var callbacks: seq<Callback>

    /** The constructor reads the debugger's current mode; nothing is reported yet. */
    constructor(debuggerMode: Mode)
      ensures vsMode == debuggerMode && callbacks == []
    {
      vsMode := debuggerMode;
      callbacks := [];
    }

    /** `ResolveBoolean`: `ide-mode` is true only outside design mode, every other tag true. */
    static function ResolveBoolean(ctx: Context, tag: string): (r: bool)
      ensures tag == "ide-mode" ==> (r <==> Resolve(ctx, tag) != Some(""))
      ensures tag != "ide-mode" ==> r
    {
      tag != "ide-mode" || ctx.mode != DesignMode
    }

    /** `Resolve`: the product name, the title of the queried mode, or null. */
    static function Resolve(ctx: Context, tag: string): (r: Option<string>)
      ensures tag == "ide-name" ==> r == Some(IdeName)
      ensures tag == "ide-mode" ==> r == Some(ModeTitle(ctx.mode))
      ensures tag != "ide-name" && tag != "ide-mode" ==> r.None?
    {
      if tag == "ide-name" then Some(IdeName)
      else if tag == "ide-mode" then Some(ModeTitle(ctx.mode))
      else None
    }

    /** `OnExecutionChanged`: start-up or shut-down is reported with the current mode, which stays. */
    method OnExecutionChanged(going: bool)
      modifies this
      ensures vsMode == old(vsMode)
      ensures callbacks == old(callbacks) + [Callback(if going then StartupComplete else ShutdownInitiated, vsMode)]
    {
      var reason := if going then StartupComplete else ShutdownInitiated;
      callbacks := callbacks + [Callback(reason, vsMode)];
    }

    /** `OnModeChanged`: the mode is stored and reported, even when it has not changed. */
    method OnModeChanged(mode: Mode)
      modifies this
      ensures vsMode == mode
      ensures callbacks == old(callbacks) + [Callback(ModeChanged, mode)]
    {
      vsMode := mode;
      callbacks := callbacks + [Callback(ModeChanged, vsMode)];
    }
  }

  /** The resolver as the format-string engine sees it (it has no `SatisfiesDependency` of its own). */
  function TitleBarNoneView(): (r: Resolver)
    ensures r.tags == IdeTags
  {
    Resolver(IdeTags,
      (ctx, tag) => TitleBarNoneIdeResolver.ResolveBoolean(ctx, tag),
      (ctx, tag) => Ok(TitleBarNoneIdeResolver.Resolve(ctx, tag)),
      NoDependency)
  }

  /**
   * Through the engine's first-applicable lookup, `ide-mode` resolves to the
   * title of the current mode and is true exactly outside design mode.
   */
  lemma IdeModeThroughEngine(others: seq<Resolver>, ctx: Context)
    requires forall j :: 0 <= j < |others| ==> !Applicable(others[j], "ide-mode")
    ensures var st := VsState(others + [TitleBarNoneView()], ctx);
      Parsing.ResolveFirst(st, "ide-mode") == Ok(Some(ModeTitle(ctx.mode))) &&
      (Parsing.ResolveBooleanFirst(st, "ide-mode") <==> ctx.mode != DesignMode)
  {
    var rs := others + [TitleBarNoneView()];
    LeadingIdentifierOf("ide-mode", "");
    assert "ide-mode" + "" == "ide-mode";
    assert Applicable(rs[|others|], "ide-mode") by {
      assert rs[|others|].tags[1] == "ide-mode";
    }
    FirstApplicableAfter(others, TitleBarNoneView(), "ide-mode");
  }
}
