/**
 * The aggregation in ShellbentPackage.cs: which settings triplets apply (every
 * predicate satisfied by some resolver), the fold that takes each title-bar
 * setting from the first applicable triplet that sets it, the order in which
 * resolvers and triplets are consulted, and the reconciliation of the known
 * title-bar models with the windows currently open.
 */
module Package {
  import opened Wrappers
  import opened Resolvers
  import opened Linq
  import opened Settings

  // ------------------------------------------------------------ ordering

  /** `Resolvers`: the resolver list in reverse order of construction. */
  function Consulted(resolvers: seq<Resolver>): (r: seq<Resolver>)
    ensures |r| == |resolvers|
  {
    Reverse(resolvers)
  }

  /**
   * When several resolvers declare a tag, the engine uses the one constructed
   * last: the first applicable in the consulted order is the applicable one
   * with the highest construction index.
   */
  lemma LastConstructedWins(resolvers: seq<Resolver>, tag: string, j: nat)
    requires j < |resolvers| && Applicable(resolvers[j], tag)
    requires forall i :: j < i < |resolvers| ==> !Applicable(resolvers[i], tag)
    ensures FirstApplicable(Consulted(resolvers), tag) == Some(|resolvers| - 1 - j)
  {
    var c := Consulted(resolvers);
    var k := |resolvers| - 1 - j;
    ReverseAt(resolvers, k);
    forall i | 0 <= i < k
      ensures !Applicable(c[i], tag)
    {
      ReverseAt(resolvers, i);
    }
    FirstApplicableAt(c, tag, k);
  }

  /** The first applicable resolver is the one before which none applies. */
  lemma {:induction false} FirstApplicableAt(rs: seq<Resolver>, tag: string, k: nat)
    requires k < |rs| && Applicable(rs[k], tag)
    requires forall i :: 0 <= i < k ==> !Applicable(rs[i], tag)
    ensures FirstApplicable(rs, tag) == Some(k)
  {
    if k > 0 {
      FirstApplicableAt(rs[1..], tag, k - 1);
    }
  }

  /** What the fold reads of one settings triplet (the `Predicates` getter's outcome and the brushes). */
  datatype TripletData = TripletData(
    predicates: Result<seq<(string, string)>>,
    foreground: Option<Brush>,
    vs2017Background: Option<Brush>,
    vs2019Background: Option<Brush>,
    blocks: Option<seq<BlockSettings>>)

  /** `SettingsTriplets`: the user-directory triplets, then the solution file's (when one is loaded), then the defaults. */
  function AllTriplets(userDir: seq<TripletData>, solution: Option<seq<TripletData>>, defaults: seq<TripletData>): (r: seq<TripletData>)
    ensures |r| == |userDir| + |defaults| + if solution.Some? then |solution.value| else 0
    ensures r[..|userDir|] == userDir && r[|r| - |defaults|..] == defaults
  {
    userDir + (if solution.Some? then solution.value else []) + defaults
  }

  // ------------------------------------------------------- dependencies

  /** `Resolvers.Any(r => r.SatisfiesDependency(d))`: stops at the first `true`; an exception escapes. */
  function AnySatisfies(rs: seq<Resolver>, d: (string, string)): (r: Result<bool>)
    ensures r == Ok(true) ==> exists k :: 0 <= k < |rs| && rs[k].satisfiesDependency(d.0, d.1) == Ok(true)
    ensures r == Ok(false) <==> forall k :: 0 <= k < |rs| ==> rs[k].satisfiesDependency(d.0, d.1) == Ok(false)
  {
    if rs == [] then Ok(false)
    else
      var here :- rs[0].satisfiesDependency(d.0, d.1);
      if here then Ok(true)
      else
        var more := AnySatisfies(rs[1..], d);
        assert forall k :: 1 <= k < |rs| ==> rs[k] == rs[1..][k - 1];
        more
  }

  /** `.All(d => …)` over the predicates: stops at the first `false`; an exception escapes. */
  function AllSatisfied(rs: seq<Resolver>, ds: seq<(string, string)>): (r: Result<bool>)
    ensures r == Ok(true) <==> forall k :: 0 <= k < |ds| ==> AnySatisfies(rs, ds[k]) == Ok(true)
    ensures r == Ok(false) ==> exists k :: 0 <= k < |ds| && AnySatisfies(rs, ds[k]) == Ok(false)
  {
    if ds == [] then Ok(true)
    else
      var here :- AnySatisfies(rs, ds[0]);
      if !here then Ok(false)
      else
        var more := AllSatisfied(rs, ds[1..]);
        assert forall k :: 1 <= k < |ds| ==> ds[k] == ds[1..][k - 1];
        more
  }

  /**
   * `TripletDependenciesAreSatisfied`: every predicate is satisfied by at
   * least one resolver; a triplet without predicates always passes.
   */
  function TripletDependenciesAreSatisfied(rs: seq<Resolver>, t: TripletData): (r: Result<bool>)
    ensures t.predicates.Throw? ==> r == Throw(t.predicates.error)
    ensures t.predicates == Ok([]) ==> r == Ok(true)
    ensures t.predicates.Ok? && r == Ok(true) ==>
      forall k :: 0 <= k < |t.predicates.value| ==>
        exists j :: 0 <= j < |rs| && rs[j].satisfiesDependency(t.predicates.value[k].0, t.predicates.value[k].1) == Ok(true)
    ensures t.predicates.Ok? && r == Ok(false) ==>
      exists k :: 0 <= k < |t.predicates.value| &&
        forall j :: 0 <= j < |rs| ==> rs[j].satisfiesDependency(t.predicates.value[k].0, t.predicates.value[k].1) == Ok(false)
  {
    var ds :- t.predicates;
    AllSatisfied(rs, ds)
  }

  /**
   * `.Where(p)` with a predicate that may throw: the elements `p` holds for,
   * in order, or the first exception `p` raises.
   */
  function Where<T>(ts: seq<T>, p: T -> Result<bool>): (r: Result<seq<T>>)
    ensures r.Ok? <==> forall k :: 0 <= k < |ts| ==> p(ts[k]).Ok?
    ensures r.Ok? ==> forall k :: 0 <= k < |r.value| ==> r.value[k] in ts && p(r.value[k]) == Ok(true)
    ensures r.Ok? ==> forall k :: 0 <= k < |ts| && p(ts[k]) == Ok(true) ==> ts[k] in r.value
  {
    if ts == [] then Ok([])
    else
      var here :- p(ts[0]);
      var more :- Where(ts[1..], p);
      assert forall k :: 1 <= k < |ts| ==> ts[k] == ts[1..][k - 1];
      Ok((if here then [ts[0]] else []) + more)
  }

  /** When `p` is false everywhere, nothing is left. */
  lemma {:induction false} WhereNone<T>(ts: seq<T>, p: T -> Result<bool>)
    requires forall k :: 0 <= k < |ts| ==> p(ts[k]) == Ok(false)
    ensures Where(ts, p) == Ok([])
  {
    if ts != [] {
      WhereNone(ts[1..], p);
      var none: seq<T> := [];
      assert none + none == none;
    }
  }

  /** One element is kept exactly when `p` holds for it; an exception escapes. */
  lemma WhereOne<T>(x: T, p: T -> Result<bool>)
    ensures p(x).Throw? ==> Where([x], p) == Throw(p(x).error)
    ensures p(x).Ok? ==> Where([x], p) == Ok(if p(x).value then [x] else [])
  {
    assert [x][1..] == [];
    if p(x).Ok? {
      var head: seq<T> := if p(x).value then [x] else [];
      assert head + [] == head;
    }
  }

  /** Regrouping a concatenation, as a separate step so that the proof of `WhereAppend` stays small. */
  lemma ConcatAssoc<T>(x: seq<T>, y: seq<T>, z: seq<T>)
    ensures x + (y + z) == (x + y) + z
  {
  }

  /** Filtering a concatenation is concatenating the filtered parts. */
  lemma {:induction false} WhereAppend<T>(a: seq<T>, b: seq<T>, p: T -> Result<bool>)
    requires Where(a, p).Ok? && Where(b, p).Ok?
    ensures Where(a + b, p).Ok?
    ensures Where(a + b, p).value == Where(a, p).value + Where(b, p).value
  {
    if a == [] {
      assert a + b == b;
    } else {
      var ab := a + b;
      assert ab[0] == a[0] && ab[1..] == a[1..] + b;
      WhereAppend(a[1..], b, p);
      var head: seq<T> := if p(a[0]).value then [a[0]] else [];
      ConcatAssoc(head, Where(a[1..], p).value, Where(b, p).value);
    }
  }

  /** The triplet test as a function value. */
  function Passes(rs: seq<Resolver>): TripletData -> Result<bool> {
    t => TripletDependenciesAreSatisfied(rs, t)
  }

  /** `.Where(TripletDependenciesAreSatisfied)`: the passing triplets in order; an exception escapes. */
  function Passing(rs: seq<Resolver>, ts: seq<TripletData>): (r: Result<seq<TripletData>>)
    ensures r.Ok? <==> forall k :: 0 <= k < |ts| ==> TripletDependenciesAreSatisfied(rs, ts[k]).Ok?
    ensures r.Ok? ==> forall k :: 0 <= k < |r.value| ==> r.value[k] in ts && TripletDependenciesAreSatisfied(rs, r.value[k]) == Ok(true)
    ensures r.Ok? ==> forall k :: 0 <= k < |ts| && TripletDependenciesAreSatisfied(rs, ts[k]) == Ok(true) ==> ts[k] in r.value
  {
    Where(ts, Passes(rs))
  }

  /** The passing triplets of a concatenation are those of each part, in order. */
  lemma PassingAppend(rs: seq<Resolver>, a: seq<TripletData>, b: seq<TripletData>)
    requires Passing(rs, a).Ok? && Passing(rs, b).Ok?
    ensures Passing(rs, a + b) == Ok(Passing(rs, a).value + Passing(rs, b).value)
  {
    WhereAppend(a, b, Passes(rs));
  }

  /** A single triplet passes exactly when its dependencies are satisfied; an exception escapes. */
  lemma PassingOne(rs: seq<Resolver>, t: TripletData)
    ensures TripletDependenciesAreSatisfied(rs, t).Throw? ==> Passing(rs, [t]) == Throw(TripletDependenciesAreSatisfied(rs, t).error)
    ensures TripletDependenciesAreSatisfied(rs, t).Ok? ==>
      Passing(rs, [t]) == Ok(if TripletDependenciesAreSatisfied(rs, t).value then [t] else [])
  {
    WhereOne(t, Passes(rs));
  }

  // ---------------------------------------------------------------- fold

  datatype TitleBarInfoBlockData = TitleBarInfoBlockData(text: Option<string>, textBrush: Option<Brush>, backgroundBrush: Option<Brush>)

  datatype TitleBarData = TitleBarData(
    titleBarText: Option<string>,
    foreground: Option<Brush>,
    vs2017Background: Option<Brush>,
    vs2019Background: Option<Brush>,
    infos: Option<seq<TitleBarInfoBlockData>>)

  /** `new Models.TitleBarData()`: every field null. */
  const EmptyData := TitleBarData(None, None, None, None, None)

  /** The info blocks made from a triplet's blocks: one per block, in order, the text copied as it is. */
  function InfoBlocks(blocks: seq<BlockSettings>): (r: seq<TitleBarInfoBlockData>)
    ensures |r| == |blocks|
    ensures forall k :: 0 <= k < |r| ==> r[k].text == blocks[k].text
    ensures forall k :: 0 <= k < |r| ==> r[k].textBrush == BrushOf(blocks[k].foreground)
    ensures forall k :: 0 <= k < |r| ==> r[k].backgroundBrush == BrushOf(blocks[k].background)
  {
    seq(|blocks|, k requires 0 <= k < |blocks| =>
      TitleBarInfoBlockData(blocks[k].text, BrushOf(blocks[k].foreground), BrushOf(blocks[k].background)))
  }

  function InfoBlocksOf(blocks: Option<seq<BlockSettings>>): Option<seq<TitleBarInfoBlockData>> {
    if blocks.None? then None else Some(InfoBlocks(blocks.value))
  }

  /** `a ?? b`. */
  function Or<T>(a: Option<T>, b: Option<T>): (r: Option<T>)
    ensures a.Some? ==> r == a
    ensures a.None? ==> r == b
  {
    if a.Some? then a else b
  }

  /** One step of the `Aggregate`: a field already set stays; an unset one takes the triplet's. */
  function Step(acc: TitleBarData, x: TripletData): TitleBarData {
    TitleBarData(
      acc.titleBarText,
      Or(acc.foreground, x.foreground),
      Or(acc.vs2017Background, x.vs2017Background),
      Or(acc.vs2019Background, x.vs2019Background),
      Or(acc.infos, InfoBlocksOf(x.blocks)))
  }

  function Fold(acc: TitleBarData, ts: seq<TripletData>): TitleBarData
    decreases |ts|
  {
    if ts == [] then acc else Fold(Step(acc, ts[0]), ts[1..])
  }

  function Foreground(t: TripletData): Option<Brush> { t.foreground }
  function Vs2017Background(t: TripletData): Option<Brush> { t.vs2017Background }
  function Vs2019Background(t: TripletData): Option<Brush> { t.vs2019Background }
  function Blocks(t: TripletData): Option<seq<BlockSettings>> { t.blocks }

  /** The first non-null value a selector reads off the triplets, in order. */
  function FirstOf<T>(ts: seq<TripletData>, sel: TripletData -> Option<T>): (r: Option<T>)
    ensures r.None? <==> forall k :: 0 <= k < |ts| ==> sel(ts[k]).None?
  {
    if ts == [] then None
    else if sel(ts[0]).Some? then sel(ts[0])
    else
      assert forall k :: 1 <= k < |ts| ==> ts[k] == ts[1..][k - 1];
      FirstOf(ts[1..], sel)
  }

  /** The triplet at `k` sets the value and none before it does: its value is the first. */
  lemma {:induction false} FirstOfAt<T>(ts: seq<TripletData>, sel: TripletData -> Option<T>, k: nat)
    requires k < |ts| && sel(ts[k]).Some?
    requires forall j :: 0 <= j < k ==> sel(ts[j]).None?
    ensures FirstOf(ts, sel) == sel(ts[k])
  {
    if k > 0 {
      FirstOfAt(ts[1..], sel, k - 1);
    }
  }

  /** The first non-null of a concatenation is the first part's, or else the second part's. */
  lemma {:induction false} FirstOfAppend<T>(a: seq<TripletData>, b: seq<TripletData>, sel: TripletData -> Option<T>)
    ensures FirstOf(a + b, sel) == Or(FirstOf(a, sel), FirstOf(b, sel))
  {
    if a == [] {
      assert a + b == b;
    } else {
      assert (a + b)[0] == a[0];
      assert (a + b)[1..] == a[1..] + b;
      FirstOfAppend(a[1..], b, sel);
    }
  }

  /**
   * The fold from any accumulator: the title text is never touched, and each
   * field already set stays, else it is the first non-null among the triplets.
   */
  lemma {:induction false} FoldFirstNonNull(acc: TitleBarData, ts: seq<TripletData>)
    ensures Fold(acc, ts) == TitleBarData(
      acc.titleBarText,
      Or(acc.foreground, FirstOf(ts, Foreground)),
      Or(acc.vs2017Background, FirstOf(ts, Vs2017Background)),
      Or(acc.vs2019Background, FirstOf(ts, Vs2019Background)),
      Or(acc.infos, InfoBlocksOf(FirstOf(ts, Blocks))))
    decreases |ts|
  {
    if ts != [] {
      FoldFirstNonNull(Step(acc, ts[0]), ts[1..]);
    }
  }

  /** `TitleBarData`: the fold over the passing triplets, from an empty record. */
  function TitleBarDataOf(rs: seq<Resolver>, triplets: seq<TripletData>): Result<TitleBarData> {
    var passing :- Passing(Consulted(rs), triplets);
    Ok(Fold(EmptyData, passing))
  }

  /**
   * Every field of the computed record is the first non-null among the
   * passing triplets (infos built from the first non-null blocks); the title
   * text stays null; with no passing triplet every field is null.
   */
  lemma TitleBarDataFirstNonNull(rs: seq<Resolver>, triplets: seq<TripletData>)
    requires Passing(Consulted(rs), triplets).Ok?
    ensures var passing := Passing(Consulted(rs), triplets).value;
      TitleBarDataOf(rs, triplets) == Ok(TitleBarData(
        None,
        FirstOf(passing, Foreground),
        FirstOf(passing, Vs2017Background),
        FirstOf(passing, Vs2019Background),
        InfoBlocksOf(FirstOf(passing, Blocks))))
    ensures Passing(Consulted(rs), triplets) == Ok([]) ==> TitleBarDataOf(rs, triplets) == Ok(EmptyData)
  {
    FoldFirstNonNull(EmptyData, Passing(Consulted(rs), triplets).value);
  }

  /**
   * Precedence of the three sources: a value set by a passing user-directory
   * triplet beats the solution file's, which beats the defaults'.
   */
  lemma SourcePrecedence<T>(rs: seq<Resolver>, userDir: seq<TripletData>, solution: seq<TripletData>,
                            defaults: seq<TripletData>, sel: TripletData -> Option<T>)
    requires Passing(rs, userDir).Ok? && Passing(rs, solution).Ok? && Passing(rs, defaults).Ok?
    ensures Passing(rs, AllTriplets(userDir, Some(solution), defaults)).Ok?
    ensures FirstOf(Passing(rs, AllTriplets(userDir, Some(solution), defaults)).value, sel) ==
      Or(FirstOf(Passing(rs, userDir).value, sel),
         Or(FirstOf(Passing(rs, solution).value, sel), FirstOf(Passing(rs, defaults).value, sel)))
  {
    var u, s, d := Passing(rs, userDir).value, Passing(rs, solution).value, Passing(rs, defaults).value;
    WhereAppend(userDir, solution, Passes(rs));
    WhereAppend(userDir + solution, defaults, Passes(rs));
    FirstOfAppend(u + s, d, sel);
    FirstOfAppend(u, s, sel);
  }

  // ------------------------------------------------------------- windows

  datatype Window = Window(handle: nat)

  /** The two title-bar model classes. */
  datatype ModelKind = Vs2017 | Vs2019

  /** A title-bar model: which class, and the window it decorates. */
  datatype TitleBarModel = TitleBarModel(kind: ModelKind, window: Window)

  /**
   * `TitleBarModel.Make(DTE.Version, x)`: a model of the IDE version's kind
   * for the window, or null when the version is neither (version detection is
   * a parameter).
   */
  function Make(kind: Option<ModelKind>, w: Window): (r: Option<TitleBarModel>)
    ensures r.None? <==> kind.None?
    ensures r.Some? ==> r.value.window == w && r.value.kind == kind.value
  {
    if kind.None? then None else Some(TitleBarModel(kind.value, w))
  }

  function WindowsOf(ms: seq<TitleBarModel>): (r: seq<Window>)
    ensures |r| == |ms| && forall k :: 0 <= k < |ms| ==> r[k] == ms[k].window
  {
    seq(|ms|, k requires 0 <= k < |ms| => ms[k].window)
  }

  predicate DistinctWindows(ms: seq<TitleBarModel>) {
    forall i, j :: 0 <= i < j < |ms| ==> ms[i].window != ms[j].window
  }

  /** `ws.Except(excluded)`: the distinct windows of `ws` not excluded, in order of first appearance. */
  function Except(ws: seq<Window>, excluded: seq<Window>): (r: seq<Window>)
    ensures forall k :: 0 <= k < |r| ==> r[k] in ws && r[k] !in excluded
    ensures forall w :: w in ws && w !in excluded ==> w in r
    ensures forall i, j :: 0 <= i < j < |r| ==> r[i] != r[j]
    decreases |ws|
  {
    if ws == [] then []
    else if ws[0] in excluded then Except(ws[1..], excluded)
    else [ws[0]] + Except(ws[1..], excluded + [ws[0]])
  }

  /** The models whose window is not in `ws`, in order. */
  function WithoutWindows(ms: seq<TitleBarModel>, ws: seq<Window>): (r: seq<TitleBarModel>)
    ensures forall k :: 0 <= k < |r| ==> r[k] in ms && r[k].window !in ws
    ensures forall m :: m in ms && m.window !in ws ==> m in r
    ensures DistinctWindows(ms) ==> DistinctWindows(r)
  {
    if ms == [] then []
    else
      var rest := WithoutWindows(ms[1..], ws);
      if ms[0].window in ws then rest
      else
        assert DistinctWindows(ms) ==> forall k :: 0 <= k < |rest| ==> rest[k].window != ms[0].window by {
          if DistinctWindows(ms) {
            forall k | 0 <= k < |rest|
              ensures rest[k].window != ms[0].window
            {
              var i :| 0 <= i < |ms[1..]| && ms[1..][i] == rest[k];
              assert ms[i + 1] == rest[k];
            }
          }
        }
        [ms[0]] + rest
  }

  /** The lost models: the known ones whose window is not open, in order. */
  function Lost(known: seq<TitleBarModel>, seen: seq<Window>): (r: seq<TitleBarModel>)
    ensures forall k :: 0 <= k < |r| ==> r[k] in known && r[k].window !in seen
    ensures forall m :: m in known && m.window !in seen ==> m in r
  {
    Filter(known, (m: TitleBarModel) => m.window !in seen)
  }

  /**
   * The discovered models: one per open window that no known model
   * decorates, in order of first appearance, when the version has a model.
   */
  function Discovered(known: seq<TitleBarModel>, seen: seq<Window>, kind: Option<ModelKind>): (r: seq<TitleBarModel>)
    ensures forall k :: 0 <= k < |r| ==> r[k].window in seen && r[k].window !in WindowsOf(known)
    ensures DistinctWindows(r)
    ensures kind.Some? ==> forall w :: w in seen && w !in WindowsOf(known) ==> exists k :: 0 <= k < |r| && r[k].window == w
  {
    if kind.None? then []
    else
      var newWindows := Except(seen, WindowsOf(known));
      ModelsCover(kind.value, newWindows);
      ModelsOf(kind.value, newWindows)
  }

  /** One new model of the kind per window, in order. */
  function ModelsOf(kind: ModelKind, ws: seq<Window>): (r: seq<TitleBarModel>)
    ensures |r| == |ws| && forall k :: 0 <= k < |r| ==> r[k].window == ws[k]
  {
    seq(|ws|, k requires 0 <= k < |ws| => Make(Some(kind), ws[k]).value)
  }

  /** Every window gets a model. */
  lemma ModelsCover(kind: ModelKind, ws: seq<Window>)
    ensures forall w :: w in ws ==> exists k :: 0 <= k < |ModelsOf(kind, ws)| && ModelsOf(kind, ws)[k].window == w
  {
    var r := ModelsOf(kind, ws);
    forall w | w in ws
      ensures exists k :: 0 <= k < |r| && r[k].window == w
    {
      var k :| 0 <= k < |ws| && ws[k] == w;
      assert r[k].window == w;
    }
  }

  /**
   * The new known list: the models not lost, in order, then the discovered
   * ones. Every model in it decorates an open window, and every known model
   * whose window is open survives.
   */
  function Reconciled(known: seq<TitleBarModel>, seen: seq<Window>, kind: Option<ModelKind>): (r: seq<TitleBarModel>)
    ensures forall k :: 0 <= k < |r| ==> r[k].window in seen
    ensures forall m :: m in known && m.window in seen ==> m in r
  {
    WithoutWindows(known, WindowsOf(Lost(known, seen))) + Discovered(known, seen, kind)
  }

  /** Reconciliation never gives one window two models, if none had two before. */
  lemma ReconciledDistinct(known: seq<TitleBarModel>, seen: seq<Window>, kind: Option<ModelKind>)
    requires DistinctWindows(known)
    ensures DistinctWindows(Reconciled(known, seen, kind))
  {
    var kept := WithoutWindows(known, WindowsOf(Lost(known, seen)));
    var discovered := Discovered(known, seen, kind);
    forall i, j | 0 <= i < |kept| && 0 <= j < |discovered|
      ensures kept[i].window != discovered[j].window
    {
      var a :| 0 <= a < |known| && known[a] == kept[i];
      assert WindowsOf(known)[a] == kept[i].window;
    }
  }

  class ShellbentPackage {
    /** `knownWindowModels`. */
    var knownWindowModels: seq<TitleBarModel>

    constructor()
      ensures knownWindowModels == []
    {
      knownWindowModels := [];
    }

    /**
     * `WindowsLostAndDiscovered`: reports the lost and the discovered models
     * and makes the known list the reconciled one, whose every model
     * decorates an open window, no window twice if none was before.
     */
    method WindowsLostAndDiscovered(seenWindows: seq<Window>, kind: Option<ModelKind>)
      returns (lost: seq<TitleBarModel>, discovered: seq<TitleBarModel>)
      modifies this
      ensures lost == Lost(old(knownWindowModels), seenWindows)
      ensures discovered == Discovered(old(knownWindowModels), seenWindows, kind)
      ensures knownWindowModels == Reconciled(old(knownWindowModels), seenWindows, kind)
      ensures forall k :: 0 <= k < |knownWindowModels| ==> knownWindowModels[k].window in seenWindows
      ensures DistinctWindows(old(knownWindowModels)) ==> DistinctWindows(knownWindowModels)
    {
      var known := knownWindowModels;
      lost := Lost(known, seenWindows);
      discovered := Discovered(known, seenWindows, kind);
      var kept := WithoutWindows(known, WindowsOf(lost));
      if DistinctWindows(known) {
        ReconciledDistinct(known, seenWindows, kind);
      }
      knownWindowModels := kept + discovered;
    }
  }
}
