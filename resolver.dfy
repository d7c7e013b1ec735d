/**
 * The resolver abstraction of Resolver.cs: the ambient state handed to every
 * query, the tag-applicability test, and glob matching.
 */
module Resolvers {
  import opened Wrappers
  import opened Text

  /** `dbgDebugMode`. */
  datatype Mode = DesignMode | RunMode | BreakMode

  /** The fields of the IDE's `Solution` object that resolvers read. */
  datatype Solution = Solution(fullName: Option<string>, fileName: Option<string>)

  /**
   * The part of `VsState` other than the resolver list; it is what a resolver
   * reads when it is queried (none of the modelled resolvers reads the list).
   */
  datatype Context = Context(mode: Mode, solution: Option<Solution>)

  /**
   * A resolver as the engine and the aggregation see it: the tags declared in
   * its constructor and its overrides of the abstract members. `resolve`
   * returns `None` for a null string and may throw.
   */
  datatype Resolver = Resolver(
    tags: seq<string>,
    resolveBoolean: (Context, string) -> bool,
    resolve: (Context, string) -> Result<Option<string>>,
    satisfiesDependency: (string, string) -> Result<bool>)

  /** `VsState`: the resolvers in the order they are consulted, plus the context. */
  datatype VsState = VsState(resolvers: seq<Resolver>, context: Context)

  /** `SatisfiesDependency` when a resolver does not override it. */
  function NoDependency(tag: string, pattern: string): Result<bool> {
    Ok(false)
  }

  predicate IsIdentifierChar(c: char) { IsLower(c) || IsDigit(c) || c == '-' }

  /** The first match of `[a-z][a-z0-9-]*` in `tag`, if any (the regex is not anchored). */
  function LeadingIdentifier(tag: string): (r: Option<string>)
    ensures r.Some? ==> r.value != [] && IsLower(r.value[0]) && |r.value| <= |tag|
    ensures r.None? <==> forall k :: 0 <= k < |tag| ==> !IsLower(tag[k])
  {
    if tag == [] then None
    else if IsLower(tag[0]) then Some(TakeWhile(tag, IsIdentifierChar))
    else LeadingIdentifier(tag[1..])
  }

  /** An identifier immediately followed by a non-identifier character (or the end) is the leading identifier. */
  lemma LeadingIdentifierOf(ident: string, rest: string)
    requires ident != [] && IsLower(ident[0])
    requires forall k :: 0 <= k < |ident| ==> IsIdentifierChar(ident[k])
    requires rest == [] || !IsIdentifierChar(rest[0])
    ensures LeadingIdentifier(ident + rest) == Some(ident)
  {
    TakeWhileOf(ident, rest, IsIdentifierChar);
  }

  /** `Resolver.Applicable`: the leading identifier of `tag` is one of the declared tags. */
  predicate Applicable(r: Resolver, tag: string) {
    exists k :: 0 <= k < |r.tags| && LeadingIdentifier(tag) == Some(r.tags[k])
  }

  /** Index of the resolver `FirstOrDefault(x => x.Applicable(tag))` selects. */
  function FirstApplicable(rs: seq<Resolver>, tag: string): (r: Option<nat>)
    ensures r.Some? ==> r.value < |rs| && Applicable(rs[r.value], tag)
    ensures r.Some? ==> forall j :: 0 <= j < r.value ==> !Applicable(rs[j], tag)
    ensures r.None? ==> forall j :: 0 <= j < |rs| ==> !Applicable(rs[j], tag)
  {
    if rs == [] then None
    else if Applicable(rs[0], tag) then Some(0)
    else match FirstApplicable(rs[1..], tag)
      case None => None
      case Some(k) => Some(k + 1)
  }

  /** Resolvers that do not apply are skipped by the lookup. */
  lemma {:induction false} FirstApplicableAfter(others: seq<Resolver>, r: Resolver, tag: string)
    requires forall j :: 0 <= j < |others| ==> !Applicable(others[j], tag)
    requires Applicable(r, tag)
    ensures FirstApplicable(others + [r], tag) == Some(|others|)
  {
    if others != [] {
      FirstApplicableAfter(others[1..], r, tag);
      assert (others + [r])[1..] == others[1..] + [r];
    }
  }

  /**
   * Whole-string, case-insensitive wildcard match: `*` any run, `?` exactly one
   * character, every other character literal (what the escaped and anchored
   * regex of GlobMatch accepts, `$` aside).
   */
  predicate Matches(p: string, c: string)
    decreases |p| + |c|
  {
    if p == [] then c == []
    else if p[0] == '*' then Matches(p[1..], c) || (c != [] && Matches(p, c[1..]))
    else c != [] && (p[0] == '?' || SameIgnoringCase(p[0], c[0])) && Matches(p[1..], c[1..])
  }

  /** The anchored regex also matches when the candidate has one extra final "\n" (`$` matches before it). */
  predicate GlobAccepts(p: string, c: string) {
    Matches(p, c) || (c != [] && c[|c| - 1] == '\n' && Matches(p, c[..|c| - 1]))
  }

  /**
   * `Resolver.GlobMatch`: a null or empty pattern accepts everything, even a
   * null candidate; otherwise a null candidate makes `Regex.IsMatch` throw.
   */
  function GlobMatch(pattern: Option<string>, candidate: Option<string>): (r: Result<bool>)
    ensures (pattern.None? || pattern.value == []) ==> r == Ok(true)
    ensures pattern.Some? && pattern.value != [] && candidate.None? ==> r == Throw(ArgumentNull)
    ensures pattern.Some? && candidate.Some? ==> r.Ok?
  {
    if pattern.None? || pattern.value == [] then Ok(true)
    else if candidate.None? then Throw(ArgumentNull)
    else Ok(GlobAccepts(pattern.value, candidate.value))
  }

  /** `*` alone matches every string. */
  lemma {:induction false} StarMatchesAll(c: string)
    ensures Matches("*", c)
  {
    if c != [] {
      StarMatchesAll(c[1..]);
    }
  }

  /** A prefix followed by `*` matches exactly the strings that start with that prefix (ignoring case). */
  lemma {:induction false} PrefixStarMatches(q: string, c: string)
    requires forall k :: 0 <= k < |q| ==> q[k] != '*' && q[k] != '?'
    ensures Matches(q + "*", c) <==>
      |q| <= |c| && forall k :: 0 <= k < |q| ==> SameIgnoringCase(q[k], c[k])
  {
    if q == [] {
      assert q + "*" == "*";
      StarMatchesAll(c);
    } else {
      assert (q + "*")[1..] == q[1..] + "*";
      if c != [] {
        PrefixStarMatches(q[1..], c[1..]);
      }
    }
  }

  /** A pattern without wildcards matches exactly the strings equal to it ignoring case: `.` is literal. */
  lemma {:induction false} LiteralMatches(p: string, c: string)
    requires forall k :: 0 <= k < |p| ==> p[k] != '*' && p[k] != '?'
    ensures Matches(p, c) <==>
      |p| == |c| && forall k :: 0 <= k < |p| ==> SameIgnoringCase(p[k], c[k])
  {
    if p != [] && c != [] {
      LiteralMatches(p[1..], c[1..]);
    }
  }

  /** `?` consumes exactly one character. */
  lemma QuestionMatchesOne(p: string, c: string)
    ensures Matches("?" + p, c) <==> c != [] && Matches(p, c[1..])
  {
    assert ("?" + p)[1..] == p;
  }
}

/** `SplitFunction`: the `name(a, b)` path slicer and the generic argument extractor. */
module SplitFunction {
  import opened Wrappers
  import opened Text
  import opened Linq

  /**
   * The two digit runs of the first match of `name\(([0-9]+), ([0-9]+)\)` that
   * starts at the front of `s`.
   */
  function CallAt(name: string, s: string): Option<(string, string)> {
    if !StartsWith(s, name + "(") then None
    else
      var r := s[|name| + 1..];
      var d1 := TakeWhile(r, IsDigit);
      var r2 := r[|d1|..];
      if d1 == [] || !StartsWith(r2, ", ") then None
      else
        var r3 := r2[2..];
        var d2 := TakeWhile(r3, IsDigit);
        if d2 == [] || !StartsWith(r3[|d2|..], ")") then None
        else Some((d1, d2))
  }

  /** The leftmost match anywhere in `s` (the regex is not anchored). */
  function FirstCall(name: string, s: string): Option<(string, string)> {
    match CallAt(name, s)
    case Some(m) => Some(m)
    case None => if s == [] then None else FirstCall(name, s[1..])
  }

  /** The LINQ pipeline `Split.Reverse.Skip(a).Take(b).Reverse`. */
  function SliceSegments(segments: seq<string>, a: int, b: int): seq<string> {
    Reverse(Take(Skip(Reverse(segments), a), b))
  }

  /** Index bounds of what the pipeline keeps: the last `b` after dropping the final `a`. */
  function SliceEnd(n: nat, a: nat): nat { if a >= n then 0 else n - a }
  function SliceStart(n: nat, a: nat, b: nat): nat { if b >= SliceEnd(n, a) then 0 else SliceEnd(n, a) - b }

  lemma SliceSegmentsIsSlice(segments: seq<string>, a: nat, b: nat)
    ensures SliceSegments(segments, a, b) ==
      segments[SliceStart(|segments|, a, b)..SliceEnd(|segments|, a)]
  {
    var n := |segments|;
    var hi, lo := SliceEnd(n, a), SliceStart(n, a, b);
    if a >= n {
      assert Skip(Reverse(segments), a) == [];
    } else {
      var rev := Reverse(segments);
      var dropped := rev[a..];
      assert Skip(rev, a) == dropped;
      var mid := Take(dropped, b);
      assert |mid| == hi - lo;
      assert mid == dropped[..hi - lo];
      forall k | 0 <= k < hi - lo ensures mid[k] == segments[n - 1 - a - k] {
        ReverseAt(segments, a + k);
      }
      var out := Reverse(mid);
      forall k | 0 <= k < hi - lo ensures out[k] == segments[lo + k] {
        ReverseAt(mid, k);
      }
    }
  }

  /**
   * `SplitFunction.Parse`: for the first `name(a, b)` in `tag` (a comma and
   * exactly one space), the segments of `data` that remain after dropping the
   * final `a` segments, keeping the last `b` of them, joined by the delimiter;
   * "" when `tag` does not match. An argument beyond the 32-bit range makes
   * `int.Parse` throw, and an empty slice makes the unseeded `Aggregate` throw.
   */
  function Parse(name: string, delim: char, tag: string, data: string): (r: Result<string>)
    ensures FirstCall(name, tag).None? ==> r == Ok("")
  {
    match FirstCall(name, tag)
    case None => Ok("")
    case Some((d1, d2)) =>
      var a :- ParseInt32(d1);
      var b :- ParseInt32(d2);
      Joined(SliceSegments(Split(data, delim), a, b), delim)
  }

  /** The kept segments joined by the delimiter; none kept throws. */
  function Joined(kept: seq<string>, delim: char): (r: Result<string>)
    ensures r.Throw? <==> kept == []
  {
    if kept == [] then Throw(InvalidOperation) else Ok(Join(kept, delim))
  }

  /** With both arguments parsed, `Parse` joins the selected segments. */
  lemma ParseParsed(name: string, delim: char, tag: string, data: string, a: int, b: int)
    requires FirstCall(name, tag).Some?
    requires ParseInt32(FirstCall(name, tag).value.0) == Ok(a)
    requires ParseInt32(FirstCall(name, tag).value.1) == Ok(b)
    ensures Parse(name, delim, tag, data) == Joined(SliceSegments(Split(data, delim), a, b), delim)
  {
  }

  /** What `Parse` returns, split again on the delimiter, is exactly the selected slice. */
  lemma ParseSelectsSlice(name: string, delim: char, tag: string, data: string, a: nat, b: nat)
    requires FirstCall(name, tag).Some?
    requires ParseInt32(FirstCall(name, tag).value.0) == Ok(a)
    requires ParseInt32(FirstCall(name, tag).value.1) == Ok(b)
    ensures var segs := Split(data, delim);
      var lo, hi := SliceStart(|segs|, a, b), SliceEnd(|segs|, a);
      (lo == hi ==> Parse(name, delim, tag, data) == Throw(InvalidOperation)) &&
      (lo < hi ==> Parse(name, delim, tag, data).Ok? &&
                   Split(Parse(name, delim, tag, data).value, delim) == segs[lo..hi])
  {
    var segs := Split(data, delim);
    ParseParsed(name, delim, tag, data, a, b);
    SliceSegmentsIsSlice(segs, a, b);
    var lo, hi := SliceStart(|segs|, a, b), SliceEnd(|segs|, a);
    if lo < hi {
      SplitJoin(segs[lo..hi], delim);
    }
  }

  predicate IsArgumentChar(c: char) { IsLower(c) || IsDigit(c) || c == '-' || c == '/' || c == '*' || c == '.' }

  function SkipSpace(s: string): (r: string)
    ensures |r| <= |s|
  {
    s[|TakeWhile(s, IsWhiteSpace)|..]
  }

  /** `\s*\)` at the front of `s`. */
  predicate ClosesArguments(s: string) {
    StartsWith(SkipSpace(s), ")")
  }

  /** `\s*,\s*ARG` at the front of `s`: the argument and what follows it. */
  function NextArgument(s: string): (r: Option<(string, string)>)
    ensures r.Some? ==> |r.value.1| < |s|
  {
    var w := SkipSpace(s);
    if !StartsWith(w, ",") then None
    else
      var w2 := SkipSpace(w[1..]);
      var arg := TakeWhile(w2, IsArgumentChar);
      if arg == [] then None else Some((arg, w2[|arg|..]))
  }

  /** After the first argument: `(\s*,\s*ARG)*\s*\)`, collecting the further arguments. */
  function MoreArguments(s: string): (r: Option<seq<string>>)
    ensures r.Some? ==> forall k :: 0 <= k < |r.value| ==> IsArgument(r.value[k])
    decreases |s|
  {
    if ClosesArguments(s) then Some([])
    else match NextArgument(s)
      case None => None
      case Some((arg, after)) =>
        match MoreArguments(after)
        case None => None
        case Some(more) => Some([arg] + more)
  }

  /** `\(\s*ARG(\s*,\s*ARG)*\s*\)` at the front of `s`. */
  function ArgumentsAt(s: string): (r: Option<seq<string>>)
    ensures r.Some? ==> |r.value| >= 1 && forall k :: 0 <= k < |r.value| ==> IsArgument(r.value[k])
  {
    if !StartsWith(s, "(") then None else ArgumentList(SkipSpace(s[1..]))
  }

  /** `ARG(\s*,\s*ARG)*\s*\)`, once the `(` and the spaces after it are gone. */
  function ArgumentList(w: string): (r: Option<seq<string>>)
    ensures r.Some? ==> |r.value| >= 1 && forall k :: 0 <= k < |r.value| ==> IsArgument(r.value[k])
  {
    var arg := TakeWhile(w, IsArgumentChar);
    if arg == [] then None
    else match MoreArguments(w[|arg|..])
      case None => None
      case Some(more) => Some([arg] + more)
  }

  /** The leftmost match in `s`: a non-empty list of arguments. */
  function FirstArguments(s: string): (r: Option<seq<string>>)
    ensures r.Some? ==> |r.value| >= 1 && forall k :: 0 <= k < |r.value| ==> IsArgument(r.value[k])
  {
    match ArgumentsAt(s)
    case Some(args) => Some(args)
    case None => if s == [] then None else FirstArguments(s[1..])
  }

  /** There is no match exactly when no position of `s` starts one. */
  lemma {:induction false} FirstArgumentsNone(s: string)
    ensures FirstArguments(s).None? <==> forall k :: 0 <= k <= |s| ==> ArgumentsAt(s[k..]).None?
  {
    assert s[0..] == s;
    if s != [] && ArgumentsAt(s).None? {
      FirstArgumentsNone(s[1..]);
      assert forall k :: 1 <= k <= |s| ==> s[1..][k - 1..] == s[k..];
    }
  }

  /** The match taken is the one at the leftmost position that starts one. */
  lemma {:induction false} FirstArgumentsAt(s: string, k: nat)
    requires k <= |s| && ArgumentsAt(s[k..]).Some?
    requires forall j :: 0 <= j < k ==> ArgumentsAt(s[j..]).None?
    ensures FirstArguments(s) == ArgumentsAt(s[k..])
  {
    if k > 0 {
      assert s[0..] == s;
      assert s[1..][k - 1..] == s[k..];
      assert forall j :: 0 <= j < k - 1 ==> s[1..][j..] == s[j + 1..];
      FirstArgumentsAt(s[1..], k - 1);
    } else {
      assert s[0..] == s;
    }
  }

  /**
   * `SplitFunction.ApplyFunction`: strip the function name when `input` starts
   * with it, then pass the arguments of the first `( a , b , … )` group to
   * `func` in order; `default` when there is no such group.
   */
  function ApplyFunction<R>(input: string, name: string, func: seq<string> -> R, default: R): (r: R)
    ensures (forall k :: 0 <= k <= |TrimPrefix(input, name)| ==> ArgumentsAt(TrimPrefix(input, name)[k..]).None?) ==>
      r == default
    ensures r == default || exists args: seq<string> ::
      |args| >= 1 && (forall k :: 0 <= k < |args| ==> IsArgument(args[k])) && r == func(args)
  {
    FirstArgumentsNone(TrimPrefix(input, name));
    match FirstArguments(TrimPrefix(input, name))
    case Some(args) => func(args)
    case None => default
  }

  /** `a1,a2,…` with nothing around the commas. */
  function CommaList(args: seq<string>): string
    requires |args| >= 1
  {
    Join(args, ',')
  }

  predicate IsArgument(a: string) {
    a != [] && forall k :: 0 <= k < |a| ==> IsArgumentChar(a[k])
  }

  lemma SkipSpaceNone(s: string)
    requires s == [] || !IsWhiteSpace(s[0])
    ensures SkipSpace(s) == s
  {
    assert TakeWhile(s, IsWhiteSpace) == [];
  }

  /** One `,ARG` step of the repetition, on the text `s`. */
  lemma NextArgumentOf(a: string, rest: string, s: string)
    requires IsArgument(a)
    requires rest != [] && (rest[0] == ',' || rest[0] == ')')
    requires s == "," + (a + rest)
    ensures NextArgument(s) == Some((a, rest))
  {
    CommaThen(a + rest, s);
    ArgumentThenSeparator(a, rest);
  }

  /** An argument followed by `,` or `)`: nothing to skip, and the run of argument characters is exactly the argument. */
  lemma ArgumentThenSeparator(a: string, rest: string)
    requires IsArgument(a)
    requires rest != [] && (rest[0] == ',' || rest[0] == ')')
    ensures SkipSpace(a + rest) == a + rest
    ensures TakeWhile(a + rest, IsArgumentChar) == a && (a + rest)[|a|..] == rest
  {
    SkipSpaceArgument(a, rest);
    ArgumentRun(a, rest);
  }

  /** A text starting with `,` has nothing to skip and continues after the comma. */
  lemma CommaThen(ar: string, s: string)
    requires s == "," + ar
    ensures SkipSpace(s) == s && StartsWith(s, ",") && s[1..] == ar
    ensures !ClosesArguments(s)
  {
    assert s[0] == ',';
    SkipSpaceNone(s);
  }

  /** One `,ARG` step of the repetition. */
  lemma MoreArgumentsStep(a: string, rest: string, more: seq<string>, s: string)
    requires IsArgument(a)
    requires rest != [] && (rest[0] == ',' || rest[0] == ')')
    requires MoreArguments(rest) == Some(more)
    requires s == "," + (a + rest)
    ensures MoreArguments(s) == Some([a] + more)
  {
    NextArgumentOf(a, rest, s);
    CommaThen(a + rest, s);
  }

  lemma {:induction false} MoreArgumentsOfList(args: seq<string>, tail: string)
    requires forall k :: 0 <= k < |args| ==> IsArgument(args[k])
    ensures MoreArguments(Concat(args) + ")" + tail) == Some(args)
    decreases |args|
  {
    if args == [] {
      MoreArgumentsClose(tail);
      assert Concat(args) + ")" + tail == ")" + tail;
    } else {
      MoreArgumentsOfList(args[1..], tail);
      MoreArgumentsCons(args, tail);
    }
  }

  /** A `)` ends the repetition with no further arguments. */
  lemma MoreArgumentsClose(tail: string)
    ensures MoreArguments(")" + tail) == Some([])
  {
    var s := ")" + tail;
    SkipSpaceNone(s);
    assert ClosesArguments(s);
  }

  /** The repetition over a list extends the repetition over the list's tail. */
  lemma MoreArgumentsCons(args: seq<string>, tail: string)
    requires args != [] && IsArgument(args[0])
    requires MoreArguments(Concat(args[1..]) + ")" + tail) == Some(args[1..])
    ensures MoreArguments(Concat(args) + ")" + tail) == Some(args)
  {
    var rest := Concat(args[1..]) + ")" + tail;
    ConcatHead(args[1..], tail);
    ConcatCons(args, tail);
    MoreArgumentsStep(args[0], rest, args[1..], Concat(args) + ")" + tail);
    assert [args[0]] + args[1..] == args;
  }

  /** The text from the first further argument on, split at that argument. */
  lemma ConcatCons(args: seq<string>, tail: string)
    requires args != []
    ensures Concat(args) + ")" + tail == "," + (args[0] + (Concat(args[1..]) + ")" + tail))
  {
    Regroup(",", args[0], Concat(args[1..]), ")", tail);
  }

  lemma Reassociate(x: string, y: string, z: string, u: string)
    ensures x + (y + z) + u == x + (y + (z + u))
  {
  }

  lemma Regroup(x: string, y: string, z: string, u: string, v: string)
    ensures x + y + z + u + v == x + (y + (z + u + v))
  {
  }

  /** `,a2,a3,…` for the arguments after the first. */
  function Concat(args: seq<string>): string {
    if args == [] then "" else "," + args[0] + Concat(args[1..])
  }

  lemma ArgumentRun(a: string, rest: string)
    requires IsArgument(a)
    requires rest == [] || !IsArgumentChar(rest[0])
    ensures TakeWhile(a + rest, IsArgumentChar) == a
  {
    TakeWhileOf(a, rest, IsArgumentChar);
  }

  lemma CommaListConcat(args: seq<string>)
    requires |args| >= 1
    ensures CommaList(args) == args[0] + Concat(args[1..])
    decreases |args|
  {
    if |args| > 1 {
      CommaListConcat(args[1..]);
      assert args[1..][1..] == args[2..];
    }
  }

  /** `(ARG` followed by a recognised repetition, on the text `s`. */
  lemma ArgumentsAtOf(a: string, rest: string, more: seq<string>, s: string)
    requires IsArgument(a)
    requires rest != [] && (rest[0] == ',' || rest[0] == ')')
    requires MoreArguments(rest) == Some(more)
    requires s == "(" + (a + rest)
    ensures ArgumentsAt(s) == Some([a] + more)
  {
    OpenParen(a, rest);
    SkipSpaceArgument(a, rest);
    ArgumentListOf(a, rest, more);
  }

  lemma SkipSpaceArgument(a: string, rest: string)
    requires IsArgument(a)
    ensures SkipSpace(a + rest) == a + rest
  {
    assert (a + rest)[0] == a[0];
    SkipSpaceNone(a + rest);
  }

  lemma OpenParen(a: string, rest: string)
    ensures StartsWith("(" + (a + rest), "(") && ("(" + (a + rest))[1..] == a + rest
  {
    assert ("(" + (a + rest))[..1] == "(";
  }

  lemma ArgumentListOf(a: string, rest: string, more: seq<string>)
    requires IsArgument(a)
    requires rest != [] && (rest[0] == ',' || rest[0] == ')')
    requires MoreArguments(rest) == Some(more)
    ensures ArgumentList(a + rest) == Some([a] + more)
  {
    TakeWhileOf(a, rest, IsArgumentChar);
    assert (a + rest)[|a|..] == rest;
  }

  /** The text after the first argument starts with `,` or `)`. */
  lemma ConcatHead(args: seq<string>, tail: string)
    ensures args == [] ==> Concat(args) + ")" + tail == ")" + tail
    ensures (Concat(args) + ")" + tail)[0] == if args == [] then ')' else ','
  {
    if args == [] {
      assert Concat(args) + ")" + tail == ")" + tail;
    }
  }

  /** `(a1,a2,…)` at the front of a string is recognised with its arguments in order. */
  lemma ArgumentsAtList(args: seq<string>)
    requires |args| >= 1
    requires forall k :: 0 <= k < |args| ==> IsArgument(args[k])
    ensures ArgumentsAt("(" + CommaList(args) + ")") == Some(args)
  {
    ParenthesisedList(args);
    ArgumentsAtFirst(args);
    assert [args[0]] + args[1..] == args;
  }

  /** The list written as its first argument and the rest is recognised as that argument and the others. */
  lemma ArgumentsAtFirst(args: seq<string>)
    requires |args| >= 1
    requires forall k :: 0 <= k < |args| ==> IsArgument(args[k])
    ensures ArgumentsAt("(" + (args[0] + (Concat(args[1..]) + ")"))) == Some([args[0]] + args[1..])
  {
    var rest := Concat(args[1..]) + ")";
    ListRest(args);
    ArgumentsAtOf(args[0], rest, args[1..], "(" + (args[0] + rest));
  }

  /** `(a1,a2,…)` is `(`, the first argument, then the rest of the list with its `)`. */
  lemma ParenthesisedList(args: seq<string>)
    requires |args| >= 1
    ensures "(" + CommaList(args) + ")" == "(" + (args[0] + (Concat(args[1..]) + ")"))
  {
    CommaListConcat(args);
    Reassociate("(", args[0], Concat(args[1..]), ")");
  }

  /** The rest of the list after the first argument is the recognised repetition of the others. */
  lemma ListRest(args: seq<string>)
    requires |args| >= 1
    requires forall k :: 0 <= k < |args| ==> IsArgument(args[k])
    ensures var rest := Concat(args[1..]) + ")";
      rest != [] && (rest[0] == ',' || rest[0] == ')') && MoreArguments(rest) == Some(args[1..])
  {
    var rest := Concat(args[1..]) + ")";
    assert Concat(args[1..]) + ")" + "" == rest;
    ConcatHead(args[1..], "");
    MoreArgumentsOfList(args[1..], "");
  }

  /** `name(a1,a2,…)` hands `func` exactly `[a1, a2, …]`, in order. */
  lemma ApplyFunctionPassesArguments<R>(name: string, args: seq<string>, func: seq<string> -> R, default: R)
    requires |args| >= 1
    requires forall k :: 0 <= k < |args| ==> IsArgument(args[k])
    ensures ApplyFunction(name + "(" + CommaList(args) + ")", name, func, default) == func(args)
  {
    var input := name + "(" + CommaList(args) + ")";
    assert input[..|name|] == name;
    assert TrimPrefix(input, name) == "(" + CommaList(args) + ")";
    ArgumentsAtList(args);
  }
}

/** Directory walking (`ResolverUtils`). */
module ResolverUtils {
  import opened Wrappers
  import opened Linq

  /** A directory as its path segments from the root (`["C:", "src", "app"]`). */
  type Directory = d: seq<string> | |d| >= 1 witness [""]

  /** `DirectoryInfo.Parent`: null at the root. */
  function Parent(d: Directory): (r: Option<Directory>)
    ensures r.None? <==> |d| == 1
    ensures r.Some? ==> |r.value| == |d| - 1 && forall k :: 0 <= k < |r.value| ==> r.value[k] == d[k]
  {
    if |d| == 1 then None else Some(d[..|d| - 1])
  }

  predicate IsRoot(d: Directory) { |d| == 1 }

  /** The directories the recursion pushes, in push order: `d` and its ancestors, innermost first, stopping at the root. */
  function Pushed(d: Option<Directory>): (r: seq<Directory>)
    decreases if d.Some? then |d.value| else 0
  {
    if d.None? || IsRoot(d.value) then [] else [d.value] + Pushed(Parent(d.value))
  }

  /**
   * `GetAllParentDirectories`: pushes `d` and each ancestor below the root
   * onto a stack and returns the stack, which enumerates the last push first.
   */
  method GetAllParentDirectories(d: Option<Directory>) returns (r: seq<Directory>)
    ensures r == Reverse(Pushed(d))
  {
    var stack: seq<Directory> := [];
    var current := d;
    while current.Some? && !IsRoot(current.value)
      invariant stack + Pushed(current) == Pushed(d)
      decreases if current.Some? then |current.value| else 0
    {
      stack := stack + [current.value];
      current := Parent(current.value);
    }
    assert Pushed(current) == [];
    assert stack == stack + Pushed(current);
    r := Reverse(stack);
  }

  lemma {:induction false} PushedPrefixes(d: Directory)
    ensures |Pushed(Some(d))| == |d| - 1
    ensures forall k :: 0 <= k < |d| - 1 ==> Pushed(Some(d))[k] == d[..|d| - k]
    decreases |d|
  {
    if |d| > 1 {
      var p := d[..|d| - 1];
      PushedPrefixes(p);
      forall k | 1 <= k < |d| - 1 ensures Pushed(Some(d))[k] == d[..|d| - k] {
        assert Pushed(Some(d))[k] == Pushed(Some(p))[k - 1];
      }
    }
  }

  /**
   * The enumeration holds every directory from the one below the root down to
   * `d` itself, each once, outermost first; the root is excluded.
   */
  lemma AllParentsOutermostFirst(d: Directory)
    ensures |Reverse(Pushed(Some(d)))| == |d| - 1
    ensures forall k :: 0 <= k < |d| - 1 ==> Reverse(Pushed(Some(d)))[k] == d[..k + 2]
  {
    PushedPrefixes(d);
    forall k | 0 <= k < |d| - 1 ensures Reverse(Pushed(Some(d)))[k] == d[..k + 2] {
      ReverseAt(Pushed(Some(d)), k);
    }
  }

  /** The directory tree: each directory's child directory names; one not listed has none. */
  type Tree = map<Directory, seq<string>>

  function Children(tree: Tree, d: Directory): seq<string> {
    if d in tree then tree[d] else []
  }

  /**
   * `dirs.SelectMany(x => x.GetDirectories()).FirstOrDefault(x => x.Name == marker)?.FullName`:
   * the marker directory under the first directory of `dirs` that has one.
   */
  function FindMarker(tree: Tree, dirs: seq<Directory>, marker: string): (r: Option<Directory>)
    ensures r.Some? ==> exists k :: 0 <= k < |dirs| && r.value == dirs[k] + [marker] && marker in Children(tree, dirs[k])
    ensures r.None? <==> forall k :: 0 <= k < |dirs| ==> marker !in Children(tree, dirs[k])
  {
    if dirs == [] then None
    else if marker in Children(tree, dirs[0]) then Some(dirs[0] + [marker])
    else FindMarker(tree, dirs[1..], marker)
  }

  /** The marker found is the one under the outermost directory that has it. */
  lemma {:induction false} FindMarkerFirst(tree: Tree, dirs: seq<Directory>, marker: string, k: nat)
    requires k < |dirs| && marker in Children(tree, dirs[k])
    requires forall j :: 0 <= j < k ==> marker !in Children(tree, dirs[j])
    ensures FindMarker(tree, dirs, marker) == Some(dirs[k] + [marker])
  {
    if k > 0 {
      FindMarkerFirst(tree, dirs[1..], marker, k - 1);
    }
  }

  /**
   * The marker search of the version-control resolvers over the enumeration
   * of `d`'s ancestors finds the marker under the OUTERMOST directory below
   * the root that has one (`d[..n]` is the ancestor with `n` segments).
   */
  lemma MarkerOutermost(tree: Tree, d: Directory, marker: string, n: nat)
    requires 2 <= n <= |d| && marker in Children(tree, d[..n])
    requires forall m :: 2 <= m < n ==> marker !in Children(tree, d[..m])
    ensures FindMarker(tree, Reverse(Pushed(Some(d))), marker) == Some(d[..n] + [marker])
  {
    var dirs := Reverse(Pushed(Some(d)));
    AllParentsOutermostFirst(d);
    assert dirs[n - 2] == d[..n];
    forall j | 0 <= j < n - 2 ensures marker !in Children(tree, dirs[j]) {
      assert dirs[j] == d[..j + 2];
    }
    FindMarkerFirst(tree, dirs, marker, n - 2);
  }

  /** No marker is found exactly when no directory between the root and `d` has one. */
  lemma MarkerAbsent(tree: Tree, d: Directory, marker: string)
    ensures FindMarker(tree, Reverse(Pushed(Some(d))), marker).None? <==>
      forall m :: 2 <= m <= |d| ==> marker !in Children(tree, d[..m])
  {
    var dirs := Reverse(Pushed(Some(d)));
    AllParentsOutermostFirst(d);
    forall m | 2 <= m <= |d| ensures dirs[m - 2] == d[..m] {
    }
    forall j | 0 <= j < |dirs| ensures dirs[j] == d[..j + 2] {
    }
  }

  /** `new FileInfo(path).Directory`: the containing directory, null for a root. */
  function ContainingDirectory(file: Directory): Option<Directory> {
    Parent(file)
  }
}
