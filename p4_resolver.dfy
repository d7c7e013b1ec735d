/**
 * `P4Resolver`: the Perforce client and depot views of the open solution,
 * answering the tags `p4`, `p4-client` and `p4-view(from, count)`.
 */
module P4Resolvers {
  import opened Wrappers
  import opened Text
  import opened Linq
  import opened Resolvers
  import SplitFunction

  const P4Tags: seq<string> := ["p4", "p4-client", "p4-view"]

  /** `Path.DirectorySeparatorChar` and `Path.AltDirectorySeparatorChar` on Windows. */
  predicate IsSeparator(c: char) { c == '\\' || c == '/' }

  /**
   * `PathAddBackslash`: a null path throws; otherwise the path without its
   * trailing white space, ending in a separator: its own last character when
   * that is one, else one more character, `/` when the path already uses `/`
   * and `\` when it does not.
   */
  function PathAddBackslash(path: Option<string>): (r: Result<string>)
    ensures path.None? <==> r == Throw(ArgumentNull)
    ensures path.Some? ==> r.Ok? && r.value != [] && IsSeparator(r.value[|r.value| - 1])
    ensures path.Some? ==>
      var t := TrimEnd(path.value);
      StartsWith(r.value, t) && |r.value| <= |t| + 1 &&
      (|r.value| == |t| <==> t != [] && IsSeparator(t[|t| - 1])) &&
      (|r.value| == |t| + 1 ==> (r.value[|t|] == '/' <==> '/' in t))
  {
    if path.None? then Throw(ArgumentNull)
    else
      var t := TrimEnd(path.value);
      if t != [] && IsSeparator(t[|t| - 1]) then Ok(t)
      else Ok(t + [if '/' in t then '/' else '\\'])
  }

  /** The result already ends in a separator, so adding one again changes nothing. */
  lemma PathAddBackslashIdempotent(path: string)
    ensures PathAddBackslash(Some(PathAddBackslash(Some(path)).value)) == PathAddBackslash(Some(path))
  {
    var r := PathAddBackslash(Some(path)).value;
    assert !IsWhiteSpace(r[|r| - 1]);
    assert TrimEnd(r) == r;
  }

  predicate NotWhiteSpace(c: char) { !IsWhiteSpace(c) }

  /**
   * `ExtractFirstView` on one line of a client spec's `View:` section: the
   * trimmed line's leading `+` or `-`, if any, then its first run without
   * white space. For a quoted view the code appends `ToString()` of a LINQ
   * iterator, which is the iterator's type name; the model takes that text as
   * the parameter `iteratorText`.
   */
  function ExtractFirstView(str: string, iteratorText: string): string {
    ViewOfTrimmed(Trim(str), iteratorText)
  }

  /** The sign `ViewOfTrimmed` takes from `t`. */
  function SignOf(t: string): string {
    if t != [] && (t[0] == '-' || t[0] == '+') then [t[0]] else []
  }

  /** `ExtractFirstView` after its `Trim`. */
  function ViewOfTrimmed(t: string, iteratorText: string): (r: string)
    ensures t != [] && (t[0] == '+' || t[0] == '-') ==> r != [] && r[0] == t[0]
  {
    var sign := SignOf(t);
    var u := t[|sign|..];
    if StartsWith(u, "\"") then sign + iteratorText
    else sign + TakeWhile(u, NotWhiteSpace)
  }

  predicate IsSign(sign: string) { sign == "" || sign == "+" || sign == "-" }

  /** An unquoted view, optionally signed. */
  predicate IsViewWord(sign: string, word: string) {
    IsSign(sign) && word != [] && (forall k :: 0 <= k < |word| ==> !IsWhiteSpace(word[k])) &&
    word[0] != '"' && (sign == "" ==> word[0] != '+' && word[0] != '-')
  }

  lemma SignedShape(t: string, sign: string, word: string)
    requires IsViewWord(sign, word)
    requires StartsWith(t, sign + word)
    ensures SignOf(t) == sign
    ensures t[|sign|..] == word + t[|sign + word|..]
  {
    var n := |sign + word|;
    assert t[..n] == sign + word;
    assert t[0] == (sign + word)[0];
    assert t == (sign + word) + t[n..];
  }

  lemma ViewOfTrimmedOf(t: string, sign: string, word: string, iteratorText: string)
    requires IsViewWord(sign, word)
    requires StartsWith(t, sign + word)
    requires |t| == |sign + word| || IsWhiteSpace(t[|sign + word|])
    ensures ViewOfTrimmed(t, iteratorText) == sign + word
  {
    SignedShape(t, sign, word);
    var u := t[|sign|..];
    var tail := t[|sign + word|..];
    assert tail == [] || IsWhiteSpace(tail[0]);
    TakeWhileOf(word, tail, NotWhiteSpace);
    assert u[0] == word[0];
  }

  /** An unquoted view line yields its sign followed by the view, whatever follows after white space. */
  lemma ExtractFirstViewOf(line: string, lead: string, sign: string, word: string, rest: string, iteratorText: string)
    requires line == lead + ((sign + word) + rest)
    requires forall k :: 0 <= k < |lead| ==> IsWhiteSpace(lead[k])
    requires IsViewWord(sign, word)
    requires rest == [] || IsWhiteSpace(rest[0])
    ensures ExtractFirstView(line, iteratorText) == sign + word
  {
    var a := sign + word;
    assert a[0] == (if sign == "" then word[0] else sign[0]);
    assert a[|a| - 1] == word[|word| - 1];
    TrimmedRun(lead, a, rest, line);
    ViewOfTrimmedOf(Trim(line), sign, word, iteratorText);
  }

  /** `SkipWhile(x => !x.StartsWith("View:"))`. */
  function FromViewHeader(lines: seq<string>): (r: seq<string>)
    ensures |r| <= |lines| && r == lines[|lines| - |r|..]
    ensures r == [] || StartsWith(r[0], "View:")
    ensures forall k :: 0 <= k < |lines| - |r| ==> !StartsWith(lines[k], "View:")
  {
    if lines == [] || StartsWith(lines[0], "View:") then lines else FromViewHeader(lines[1..])
  }

  /** `TakeWhile(x => x.StartsWith("\t"))`. */
  function TabbedPrefix(lines: seq<string>): (r: seq<string>)
    ensures |r| <= |lines| && r == lines[..|r|]
    ensures forall k :: 0 <= k < |r| ==> StartsWith(r[k], "\t")
    ensures |r| < |lines| ==> !StartsWith(lines[|r|], "\t")
  {
    if lines != [] && StartsWith(lines[0], "\t") then [lines[0]] + TabbedPrefix(lines[1..]) else []
  }

  function ExtractViews(entries: seq<string>, iteratorText: string): (r: seq<string>)
    ensures |r| == |entries|
    ensures forall k :: 0 <= k < |r| ==> r[k] == ExtractFirstView(entries[k], iteratorText)
  {
    seq(|entries|, k requires 0 <= k < |entries| => ExtractFirstView(entries[k], iteratorText))
  }

  /** The views of a `p4 client -o` spec: the tab-indented lines right after the first `View:` line. */
  function ClientViews(clientSpec: string, iteratorText: string): seq<string> {
    ExtractViews(TabbedPrefix(Skip(FromViewHeader(Split(clientSpec, '\n')), 1)), iteratorText)
  }

  /** Lines before the first `View:` line and the first untabbed line after it contribute nothing. */
  lemma ClientViewsOf(before: seq<string>, header: string, entries: seq<string>, after: seq<string>,
                      clientSpec: string, iteratorText: string)
    requires forall k :: 0 <= k < |before| ==> !StartsWith(before[k], "View:")
    requires StartsWith(header, "View:")
    requires forall k :: 0 <= k < |entries| ==> StartsWith(entries[k], "\t")
    requires after == [] || !StartsWith(after[0], "\t")
    requires Split(clientSpec, '\n') == before + ([header] + (entries + after))
    ensures ClientViews(clientSpec, iteratorText) == ExtractViews(entries, iteratorText)
  {
    FromViewHeaderOf(before, [header] + (entries + after));
    assert Skip([header] + (entries + after), 1) == entries + after;
    TabbedPrefixOf(entries, after);
  }

  lemma {:induction false} FromViewHeaderOf(before: seq<string>, rest: seq<string>)
    requires forall k :: 0 <= k < |before| ==> !StartsWith(before[k], "View:")
    requires rest != [] && StartsWith(rest[0], "View:")
    ensures FromViewHeader(before + rest) == rest
  {
    if before == [] {
      assert before + rest == rest;
    } else {
      assert (before + rest)[0] == before[0];
      assert (before + rest)[1..] == before[1..] + rest;
      FromViewHeaderOf(before[1..], rest);
    }
  }

  lemma {:induction false} TabbedPrefixOf(entries: seq<string>, after: seq<string>)
    requires forall k :: 0 <= k < |entries| ==> StartsWith(entries[k], "\t")
    requires after == [] || !StartsWith(after[0], "\t")
    ensures TabbedPrefix(entries + after) == entries
  {
    if entries == [] {
      assert entries + after == after;
    } else {
      assert (entries + after)[0] == entries[0];
      assert (entries + after)[1..] == entries[1..] + after;
      TabbedPrefixOf(entries[1..], after);
    }
  }

  /** C# `int` addition, which wraps around on overflow. */
  function Wrap32(x: int): (r: int)
    ensures Int32Min <= r <= Int32Max
    ensures Int32Min <= x <= Int32Max ==> r == x
  {
    if Int32Min <= x <= Int32Max then x else (x - Int32Min) % 0x1_0000_0000 + Int32Min
  }

  /** The wrapped sum differs from the exact one by a multiple of 2^32. */
  lemma Wrap32Congruent(x: int)
    ensures (Wrap32(x) - x) % 0x1_0000_0000 == 0
  {
  }

  /** A view's path segments: the `+`, `-` and `//` prefixes dropped, in that order, then split on `/`. */
  function ViewSegments(view: string): seq<string> {
    Split(TrimPrefix(TrimPrefix(TrimPrefix(view, "+"), "-"), "//"), '/')
  }

  /** `string.Join("/", pieces)`, which is "" for no pieces. */
  function JoinSegments(pieces: seq<string>): (r: string)
    ensures pieces == [] ==> r == ""
    ensures pieces != [] ==> r == Join(pieces, '/')
  {
    if pieces == [] then "" else Join(pieces, '/')
  }

  /** `x.Skip(from).Take(count)` joined by `/`, for one view's segments `x`. */
  function SliceOf(segs: seq<string>, from: int, count: int): string {
    JoinSegments(Take(Skip(segs, from), count))
  }

  /** Within bounds the slice is the segments `[from, from + count)`. */
  lemma SliceOfInBounds(segs: seq<string>, from: nat, count: nat)
    requires from + count <= |segs|
    ensures SliceOf(segs, from, count) == JoinSegments(segs[from..from + count])
  {
    assert Take(Skip(segs, from), count) == segs[from..from + count];
  }

  /**
   * The rest of the view pipeline with its `FirstOrDefault`: the segments
   * `[from, from + count)` of the first view, from index `i` on, with at
   * least `bound` segments, joined by `/`; null when none is long enough.
   * `segments` is the per-view split (`ViewSegments` in the handler).
   * The caller passes `from + count` as `bound`, wrapped as C# `int`
   * addition wraps.
   */
  function FirstSlice(views: seq<string>, segments: string -> seq<string>, i: nat, bound: int, from: int, count: int): Option<string>
    requires i <= |views|
    decreases |views| - i
  {
    if i == |views| then None
    else
      var segs := segments(views[i]);
      if |segs| >= bound then Some(SliceOf(segs, from, count))
      else FirstSlice(views, segments, i + 1, bound, from, count)
  }

  /** No view long enough: null. */
  lemma {:induction false} FirstSliceNone(views: seq<string>, segments: string -> seq<string>, i: nat, bound: int, from: int, count: int)
    requires i <= |views|
    ensures FirstSlice(views, segments, i, bound, from, count).None? <==>
      forall k :: i <= k < |views| ==> |segments(views[k])| < bound
    decreases |views| - i
  {
    if i < |views| {
      FirstSliceNone(views, segments, i + 1, bound, from, count);
    }
  }

  /** The slice is taken from the first view that is long enough. */
  lemma {:induction false} FirstSliceAt(views: seq<string>, segments: string -> seq<string>, i: nat, bound: int, from: int, count: int, k: nat)
    requires i <= k < |views| && |segments(views[k])| >= bound
    requires forall j :: i <= j < k ==> |segments(views[j])| < bound
    ensures FirstSlice(views, segments, i, bound, from, count) == Some(SliceOf(segments(views[k]), from, count))
    decreases k - i
  {
    if i < k {
      FirstSliceAt(views, segments, i + 1, bound, from, count, k);
    }
  }

  /**
   * The function handed to `ApplyFunction` for `p4-view`: `from` and `count`
   * default to 0 and 1; an unparsable argument or a null view list throws
   * inside a catch-all and gives null.
   */
  function ViewHandler(views: Option<seq<string>>, bits: seq<string>): (r: Option<string>)
    ensures views.None? ==> r.None?
  {
    ViewOfArguments(views, ViewSegments, if |bits| > 0 then ParseInt32(bits[0]) else Ok(0), if |bits| > 1 then ParseInt32(bits[1]) else Ok(1))
  }

  /** The handler once its arguments are parsed: a failed parse or a null view list gives null. */
  function ViewOfArguments(views: Option<seq<string>>, segments: string -> seq<string>, from: Result<int>, count: Result<int>): Option<string> {
    if from.Throw? || count.Throw? || views.None? then None
    else FirstSlice(views.value, segments, 0, Wrap32(from.value + count.value), from.value, count.value)
  }

  /** With its arguments parsed, the handler is the first-slice search over the views. */
  lemma ViewHandlerParsed(views: seq<string>, bits: seq<string>, from: int, count: int)
    requires (if |bits| > 0 then ParseInt32(bits[0]) else Ok(0)) == Ok(from)
    requires (if |bits| > 1 then ParseInt32(bits[1]) else Ok(1)) == Ok(count)
    ensures ViewHandler(Some(views), bits) == FirstSlice(views, ViewSegments, 0, Wrap32(from + count), from, count)
  {
    ViewHandlerArguments(views, bits, Ok(from), Ok(count));
    ViewOfParsed(views, ViewSegments, from, count);
  }

  /** The handler passes on its parsed arguments. */
  lemma ViewHandlerArguments(views: seq<string>, bits: seq<string>, from: Result<int>, count: Result<int>)
    requires (if |bits| > 0 then ParseInt32(bits[0]) else Ok(0)) == from
    requires (if |bits| > 1 then ParseInt32(bits[1]) else Ok(1)) == count
    ensures ViewHandler(Some(views), bits) == ViewOfArguments(Some(views), ViewSegments, from, count)
  {
  }

  /** Parsed arguments and a view list start the first-slice search at the wrapped bound. */
  lemma ViewOfParsed(views: seq<string>, segments: string -> seq<string>, from: int, count: int)
    ensures ViewOfArguments(Some(views), segments, Ok(from), Ok(count)) == FirstSlice(views, segments, 0, Wrap32(from + count), from, count)
  {
  }

  /** Within the first long-enough view, the slice is its segments `[from, from + count)`. */
  lemma FirstSliceInBounds(views: seq<string>, segments: string -> seq<string>, from: nat, count: nat, k: nat)
    requires k < |views| && from + count <= |segments(views[k])|
    requires forall j :: 0 <= j < k ==> |segments(views[j])| < from + count
    ensures FirstSlice(views, segments, 0, from + count, from, count) ==
      Some(JoinSegments(segments(views[k])[from..from + count]))
  {
    FirstSliceAt(views, segments, 0, from + count, from, count, k);
    SliceOfInBounds(segments(views[k]), from, count);
  }

  /** `p4-view(from,count)` selects the segments `[from, from + count)` of the first view that has them. */
  lemma ViewSlice(views: seq<string>, fromText: string, countText: string, from: nat, count: nat, k: nat)
    requires ParseInt32(fromText) == Ok(from) && ParseInt32(countText) == Ok(count)
    requires from + count <= Int32Max
    requires k < |views| && from + count <= |ViewSegments(views[k])|
    requires forall j :: 0 <= j < k ==> |ViewSegments(views[j])| < from + count
    ensures ViewHandler(Some(views), [fromText, countText]) ==
      Some(JoinSegments(ViewSegments(views[k])[from..from + count]))
  {
    ViewHandlerInRange(views, [fromText, countText], from, count);
    FirstSliceInBounds(views, ViewSegments, from, count, k);
  }

  /** With one argument, `p4-view(from)` is the single segment `from` of the first view that has it. */
  lemma ViewDefaultCount(views: seq<string>, fromText: string, from: nat, k: nat)
    requires ParseInt32(fromText) == Ok(from) && from < Int32Max
    requires k < |views| && from < |ViewSegments(views[k])|
    requires forall j :: 0 <= j < k ==> |ViewSegments(views[j])| <= from
    ensures ViewHandler(Some(views), [fromText]) == Some(ViewSegments(views[k])[from])
  {
    ViewOneArgument(views, fromText, from);
    FirstSliceOne(views, from, k);
  }

  /** With one argument the count is 1. */
  lemma ViewOneArgument(views: seq<string>, fromText: string, from: nat)
    requires ParseInt32(fromText) == Ok(from) && from < Int32Max
    ensures ViewHandler(Some(views), [fromText]) == FirstSlice(views, ViewSegments, 0, from + 1, from, 1)
  {
    var bits := [fromText];
    assert bits[0] == fromText;
    ViewHandlerInRange(views, bits, from, 1);
  }

  /** The one-segment slice of the first view that has segment `from` is that segment. */
  lemma FirstSliceOne(views: seq<string>, from: nat, k: nat)
    requires k < |views| && from < |ViewSegments(views[k])|
    requires forall j :: 0 <= j < k ==> |ViewSegments(views[j])| <= from
    ensures FirstSlice(views, ViewSegments, 0, from + 1, from, 1) == Some(ViewSegments(views[k])[from])
  {
    FirstSliceInBounds(views, ViewSegments, from, 1, k);
    JoinOne(ViewSegments(views[k]), from);
  }

  /** A one-segment slice is that segment. */
  lemma JoinOne(segs: seq<string>, from: nat)
    requires from < |segs|
    ensures JoinSegments(segs[from..from + 1]) == segs[from]
  {
    assert segs[from..from + 1] == [segs[from]];
  }

  /** When `from + count` fits in an `int`, the handler's bound is `from + count` itself. */
  lemma ViewHandlerInRange(views: seq<string>, bits: seq<string>, from: nat, count: nat)
    requires (if |bits| > 0 then ParseInt32(bits[0]) else Ok(0)) == Ok(from)
    requires (if |bits| > 1 then ParseInt32(bits[1]) else Ok(1)) == Ok(count)
    requires from + count <= Int32Max
    ensures ViewHandler(Some(views), bits) == FirstSlice(views, ViewSegments, 0, from + count, from, count)
  {
    ViewHandlerParsed(views, bits, from, count);
  }

  /** `p4-view(...)` is applicable to the resolver: its leading identifier is the declared tag `p4-view`. */
  lemma ViewTagApplicable(args: string)
    ensures LeadingIdentifier("p4-view(" + args) == Some("p4-view")
  {
    assert "p4-view(" + args == "p4-view" + ("(" + args);
    LeadingIdentifierOf("p4-view", "(" + args);
  }

  /** Whether some view matches the glob, as `p4Views.Any(v => GlobMatch(pattern, v))`. */
  predicate AnyViewMatches(pattern: string, views: seq<string>) {
    exists k :: 0 <= k < |views| && GlobMatch(Some(pattern), Some(views[k])) == Ok(true)
  }

  class P4Resolver {
    /** The client root, with a trailing separator; `""` after a close. */
    var p4Path: Option<string>
    var p4Client: Option<string>
    var p4Views: Option<seq<string>>

    /** A new resolver: nothing bound, every field null. */
    constructor()
      ensures p4Path.None? && p4Client.None? && p4Views.None?
      ensures !Available()
    {
      p4Path := None;
      p4Client := None;
      p4Views := None;
    }

    /** `Available`: the client root is known and not empty. */
    predicate Available()
      reads this
    {
      p4Path.Some? && p4Path.value != []
    }

    /** `ResolveBoolean`: only the bare tag `p4` is true. */
    function ResolveBoolean(tag: string): (r: bool)
      ensures r <==> tag == "p4"
    {
      tag == "p4"
    }

    /**
     * `Resolve`: a tag starting with `p4-view` goes through `ApplyFunction` to
     * the view slicer, an empty or null slice giving null; `p4-client` gives
     * the client name; anything else null.
     */
    function Resolve(tag: string): (r: Option<string>)
      reads this
      ensures r.Some? && StartsWith(tag, "p4-view") ==> r.value != []
      ensures !StartsWith(tag, "p4-view") && tag == "p4-client" ==> r == p4Client
      ensures !StartsWith(tag, "p4-view") && tag != "p4-client" ==> r.None?
      ensures StartsWith(tag, "p4-view") && p4Views.None? ==> r.None?
    {
      if StartsWith(tag, "p4-view") then
        var views := p4Views;
        var view := SplitFunction.ApplyFunction(tag, "p4-view", bits => ViewHandler(views, bits), None);
        if view.None? || view.value == [] then None else view
      else if tag == "p4-client" then p4Client
      else None
    }

    /**
     * `SatisfiesDependency`: false while unavailable; `p4` is true, `p4-client`
     * globs the client name, `p4-view` asks whether any view matches (a null
     * view list makes `Any` throw), anything else is false.
     */
    function SatisfiesDependency(d: (string, string)): (r: Result<bool>)
      reads this
      ensures !Available() ==> r == Ok(false)
      ensures Available() && d.0 == "p4" ==> r == Ok(true)
      ensures Available() && d.0 == "p4-client" ==> r == GlobMatch(Some(d.1), p4Client)
      ensures Available() && d.0 == "p4-view" && p4Views.None? ==> r == Throw(ArgumentNull)
      ensures Available() && d.0 == "p4-view" && p4Views.Some? ==> r == Ok(AnyViewMatches(d.1, p4Views.value))
      ensures d.0 !in P4Tags ==> r == Ok(false)
    {
      if !Available() then Ok(false)
      else if d.0 == "p4" then Ok(Available())
      else if d.0 == "p4-client" then GlobMatch(Some(d.1), p4Client)
      else if d.0 == "p4-view" then
        if p4Views.None? then Throw(ArgumentNull) else Ok(AnyViewMatches(d.1, p4Views.value))
      else Ok(false)
    }

    /**
     * The binding part of the solution-open handler, once the client root
     * `ancestor` enclosing the solution has been found: record the root, look
     * its client up in `clients` (root with trailing separator to client
     * name), then read the views from `clientSpec`, the output of
     * `p4 client -o` (null when the process fails, which throws into the
     * handler's catch-all and leaves the views as they were).
     */
    method Bind(ancestor: string, clients: map<string, string>, clientSpec: Option<string>, iteratorText: string)
      modifies this
      ensures p4Path == Some(PathAddBackslash(Some(ancestor)).value)
      ensures p4Client == if p4Path.value in clients then Some(clients[p4Path.value]) else None
      ensures p4Views == if p4Path.value in clients && clientSpec.Some?
        then Some(ClientViews(clientSpec.value, iteratorText)) else old(p4Views)
      ensures Available()
    {
      var root := PathAddBackslash(Some(ancestor)).value;
      p4Path := Some(root);
      if root !in clients {
        p4Client := None;
        return;
      }
      p4Client := Some(clients[root]);
      if clientSpec.None? {
        return;
      }
      p4Views := Some(ClientViews(clientSpec.value, iteratorText));
    }

    /** `OnAfterSolutionClosed`: path and client become `""` and the views empty, so the resolver is unavailable. */
    method OnAfterSolutionClosed()
      modifies this
      ensures p4Path == Some("") && p4Client == Some("") && p4Views == Some([])
      ensures !Available()
    {
      p4Path := Some("");
      p4Client := Some("");
      p4Views := Some([]);
    }
  }

  /** A `p4-view(from,count)` tag reaches the view slicer with exactly its two arguments. */
  lemma ResolveViewTag(p: P4Resolver, fromText: string, countText: string)
    requires SplitFunction.IsArgument(fromText) && SplitFunction.IsArgument(countText)
    ensures var v := ViewHandler(p.p4Views, [fromText, countText]);
      p.Resolve("p4-view(" + SplitFunction.CommaList([fromText, countText]) + ")") ==
        if v.None? || v.value == [] then None else v
  {
    var args := [fromText, countText];
    var tag := "p4-view" + "(" + SplitFunction.CommaList(args) + ")";
    assert tag == "p4-view(" + SplitFunction.CommaList(args) + ")";
    assert StartsWith(tag, "p4-view") by {
      assert tag[..7] == "p4-view";
    }
    var views := p.p4Views;
    var handler := bits => ViewHandler(views, bits);
    SplitFunction.ApplyFunctionPassesArguments("p4-view", args, handler, None);
  }
}
