/**
 * The predicate parser and the format-string interpreter of Parsing.cs.
 *
 * `Expand` states what the interpreter produces for the text that remains
 * after the cursor; the methods `ParseImpl`, `ParseQuestion` and `ParseDollar`
 * walk the template with a cursor as the C# code does and are proved to agree
 * with it. An exception the code lets escape is a `Throw` result.
 */
module Parsing {
  import opened Wrappers
  import opened Text
  import opened Resolvers

  // ---------------------------------------------------------------- predicates

  predicate IsPredicateTagChar(c: char) { IsLower(c) || IsDigit(c) || c == '-' }

  predicate NotNewline(c: char) { c != '\n' }

  /**
   * The `(.+)` group after `=~`: the greedy `\s*` is tried from its longest
   * extent `p` downwards until `.` (anything but "\n") can start a run.
   */
  function PatternFrom(x: string, p: nat): (r: Option<string>)
    requires p <= |x|
    decreases p
  {
    if p < |x| && x[p] != '\n' then Some(TakeWhile(x[p..], NotNewline))
    else if p == 0 then None
    else PatternFrom(x, p - 1)
  }

  /** The optional group `(\s*=~\s*(.+))?` right after the tag. */
  function PatternGroup(after: string): Option<string> {
    var w := after[|TakeWhile(after, IsWhiteSpace)|..];
    if !StartsWith(w, "=~") then None
    else
      var x := w[2..];
      PatternFrom(x, |TakeWhile(x, IsWhiteSpace)|)
  }

  /** The first match of `([a-z0-9-]+)(\s*=~\s*(.+))?` in `x`. */
  function PredicateMatch(x: string): (r: Option<(string, string)>)
    ensures r.None? <==> forall k :: 0 <= k < |x| ==> !IsPredicateTagChar(x[k])
  {
    if x == [] then None
    else if IsPredicateTagChar(x[0]) then
      var tag := TakeWhile(x, IsPredicateTagChar);
      Some((tag, PatternGroup(x[|tag|..]).GetOr("")))
    else PredicateMatch(x[1..])
  }

  /**
   * `Parsing.ParsePredicate`: the tag is the first run of `[a-z0-9-]`; the
   * pattern is what follows `=~`, or "" without one; a string with no tag
   * character throws `InvalidOperationException`.
   */
  function ParsePredicate(x: string): (r: Result<(string, string)>)
    ensures r.Throw? <==> forall k :: 0 <= k < |x| ==> !IsPredicateTagChar(x[k])
    ensures r.Throw? ==> r.error == InvalidOperation
  {
    match PredicateMatch(x)
    case Some(m) => Ok(m)
    case None => Throw(InvalidOperation)
  }

  // ------------------------------------------------------ resolver lookups

  /** `state.Resolvers.FirstOrDefault(x => x.Applicable(tag))?.Resolve(state, tag)`. */
  function ResolveFirst(st: VsState, tag: string): Result<Option<string>> {
    match FirstApplicable(st.resolvers, tag)
    case None => Ok(None)
    case Some(k) => st.resolvers[k].resolve(st.context, tag)
  }

  /** `… ?.ResolveBoolean(state, tag) ?? false`. */
  function ResolveBooleanFirst(st: VsState, tag: string): bool {
    match FirstApplicable(st.resolvers, tag)
    case None => false
    case Some(k) => st.resolvers[k].resolveBoolean(st.context, tag)
  }

  /** Each word of a `${…}` list resolved, the word itself when unresolved or null. */
  function ResolveWords(st: VsState, words: seq<string>): (r: Result<seq<string>>)
    ensures r.Ok? ==> |r.value| == |words|
  {
    if words == [] then Ok([])
    else
      var v :- ResolveFirst(st, words[0]);
      var more :- ResolveWords(st, words[1..]);
      Ok([v.GetOr(words[0])] + more)
  }

  // ------------------------------------------------------ the interpreter

  /** What one construct produced: whether it matched, its text, and how far the cursor moved. */
  datatype Step = Step(matched: bool, text: string, consumed: nat)

  /** `t + r` for a result that may be an exception. */
  function Prepend(t: string, r: Result<string>): Result<string> {
    match r
    case Ok(v) => Ok(t + v)
    case Throw(e) => Throw(e)
  }

  /** The remaining text once the cursor has moved `n` characters (the cursor may pass the end). */
  function Drop(s: string, n: nat): string {
    if n >= |s| then [] else s[n..]
  }

  predicate IsQuestionTagChar(c: char) { IsLower(c) || c == '-' }

  predicate NotCloseBrace(c: char) { c != '}' }
  predicate NotCloseParen(c: char) { c != ')' }

  /** `char.IsNumber`, restricted to Latin-1 (digits, superscripts and vulgar fractions). */
  predicate IsNumber(c: char) {
    IsDigit(c) || c == '\U{B2}' || c == '\U{B3}' || c == '\U{B9}' || ('\U{BC}' <= c <= '\U{BE}')
  }

  /**
   * The skip loop of a false `?tag{`: the cursor starts on `{` at `n` and stops
   * after the first `}` behind it; running off the end indexes past it.
   */
  function SkipGroup(s: string, n: nat): (r: Result<nat>)
    requires n < |s|
    ensures r.Ok? ==> n < r.value - 1 < |s| && s[r.value - 1] == '}'
    ensures r.Ok? ==> forall j :: n < j < r.value - 1 ==> s[j] != '}'
    ensures r.Throw? ==> r.error == IndexOutOfRange && forall j :: n < j < |s| ==> s[j] != '}'
    decreases |s| - n
  {
    if n + 1 == |s| then Throw(IndexOutOfRange)
    else if s[n + 1] == '}' then Ok(n + 2)
    else SkipGroup(s, n + 1)
  }

  /** `ParseQuestion` on the text `s` from the `?` onwards. */
  function Question(st: VsState, s: string, d: Option<string>): (r: Result<Step>)
    requires s != [] && s[0] == '?'
    ensures r.Ok? ==> r.value.consumed >= 1
    ensures r.Ok? && !r.value.matched ==> r.value.consumed <= |s|
    decreases |s|, 1
  {
    QuestionGroup(st, s, d, TakeWhile(s[1..], IsQuestionTagChar))
  }

  /** The rest of `ParseQuestion` once the tag after `?` is read: the test, and the braced group it guards. */
  function QuestionGroup(st: VsState, s: string, d: Option<string>, tag: string): (r: Result<Step>)
    requires s != [] && s[0] == '?' && 1 + |tag| <= |s|
    ensures r.Ok? ==> r.value.consumed >= 1
    ensures r.Ok? && !r.value.matched ==> r.value.consumed <= |s|
    decreases |s|, 0
  {
    var n := 1 + |tag|;
    var valid := ResolveBooleanFirst(st, tag);
    if n == |s| then Ok(Step(valid, "", n))
    else if s[n] != '{' then Ok(Step(false, "", n))
    else if !valid then
      var after :- SkipGroup(s, n);
      Ok(Step(false, "", after))
    else
      var value :- ResolveFirst(st, tag);
      var inner := TakeWhile(s[n + 1..], NotCloseBrace);
      var body :- Expand(st, inner, value);
      Ok(Step(true, body, n + 1 + |inner| + 1))
  }

  /** `ParseDollar` on the text `s` from the `$` onwards; it always matches. */
  function Dollar(st: VsState, s: string, d: Option<string>): (r: Result<Step>)
    requires s != [] && s[0] == '$'
    ensures r.Ok? ==> r.value.matched && r.value.consumed >= 1
  {
    if |s| == 1 || IsWhiteSpace(s[1]) || IsNumber(s[1]) then Ok(Step(true, d.GetOr(""), 2))
    else if s[1] == '{' then DollarWords(st, s)
    else DollarIdentifier(st, s)
  }

  /** `${w1 w2 …}`: each space-separated word resolved on its own; the `}` is consumed when present. */
  function DollarWords(st: VsState, s: string): (r: Result<Step>)
    requires |s| >= 2 && s[0] == '$' && s[1] == '{'
    ensures r.Ok? ==> r.value.matched && r.value.consumed >= 1
  {
    var expr := TakeWhile(s[2..], NotCloseBrace);
    var n := 2 + |expr|;
    var words :- ResolveWords(st, Split(expr, ' '));
    Ok(Step(true, Join(words, ' '), if n != |s| && s[n] == '}' then n + 1 else n))
  }

  /**
   * `$ident` or `$ident(args)`: the first identifier after the `$`, with its
   * argument list, resolved as one token; unresolved, the token stands for itself.
   */
  function DollarIdentifier(st: VsState, s: string): (r: Result<Step>)
    requires |s| >= 2 && s[0] == '$'
    ensures r.Ok? ==> r.value.matched && r.value.consumed >= 1
  {
    match LeadingIdentifier(s[1..])
    case None => Ok(Step(true, "", 1))
    case Some(ident) => DollarToken(st, s, ident)
  }

  /** The identifier `ident` that follows the `$` at the head of `s`, with its argument list when one follows. */
  function DollarToken(st: VsState, s: string, ident: string): (r: Result<Step>)
    requires 1 + |ident| <= |s| && s[0] == '$'
    ensures r.Ok? ==> r.value.matched && r.value.consumed >= 1 + |ident|
  {
    var n := 1 + |ident|;
    var call := if n < |s| && s[n] == '(' then TakeWhile(s[n..], NotCloseParen) else "";
    var closed := n < |s| && s[n] == '(' && n + |call| < |s|;
    var token := ident + call + (if closed then ")" else "");
    var value :- ResolveFirst(st, token);
    Ok(Step(true, value.GetOr(token), n + |call| + (if closed then 1 else 0)))
  }

  /**
   * `ParseImpl` on the text `s` that remains, with `d` the value a bare `$`
   * stands for (null outside a conditional).
   */
  function Expand(st: VsState, s: string, d: Option<string>): Result<string>
    decreases |s|, 2
  {
    if s == [] then Ok("")
    else if s[0] == '\\' then
      if |s| == 1 then Ok("") else Prepend([s[1]], Expand(st, s[2..], d))
    else if s[0] == '?' then
      match Question(st, s, d)
      case Throw(e) => Throw(e)
      case Ok(q) =>
        if q.matched then Prepend(q.text, Expand(st, Drop(s, q.consumed), d))
        // a declined `?` leaves the cursor where it stopped and the `else if` chain goes on there
        else if q.consumed == |s| then Throw(IndexOutOfRange)
        else DollarOrLiteral(st, s[q.consumed..], d)
    else DollarOrLiteral(st, s, d)
  }

  /** The last two branches of the `ParseImpl` loop: a `$` construct, or one character copied. */
  function DollarOrLiteral(st: VsState, s: string, d: Option<string>): Result<string>
    requires s != []
    decreases |s|, 1
  {
    if s[0] == '$' then
      match Dollar(st, s, d)
      case Throw(e) => Throw(e)
      case Ok(r) => Prepend(r.text, Expand(st, Drop(s, r.consumed), d))
    else Prepend([s[0]], Expand(st, s[1..], d))
  }

  // ------------------------------------------------------ the cursor walk

  lemma PrependPrepend(t: string, u: string, x: Result<string>, tu: string)
    requires tu == t + u
    ensures Prepend(t, Prepend(u, x)) == Prepend(tu, x)
  {
    if x.Ok? {
      assert t + (u + x.value) == t + u + x.value;
    }
  }

  lemma DropDrop(s: string, i: nat, c: nat, j: nat)
    requires i < |s| && j == i + c
    ensures Drop(s[i..], c) == Drop(s, j)
  {
    if j < |s| {
      assert s[i..][c..] == s[j..];
    }
  }

  // One step of `Expand` at the cursor `i`, with `j` where the cursor goes next.

  lemma StepEscape(st: VsState, p: string, i: nat, d: Option<string>, j: nat)
    requires i + 1 < |p| && p[i] == '\\' && j == i + 2
    ensures Expand(st, Drop(p, i), d) == Prepend([p[i + 1]], Expand(st, Drop(p, j), d))
  {
    DropDrop(p, i, 2, j);
  }

  lemma StepQuestionThrow(st: VsState, p: string, i: nat, d: Option<string>, e: Exception)
    requires i < |p| && p[i] == '?' && Question(st, p[i..], d) == Throw(e)
    ensures Expand(st, Drop(p, i), d) == Throw(e)
  {
  }

  lemma StepQuestionMatched(st: VsState, p: string, i: nat, d: Option<string>, q: Step, j: nat)
    requires i < |p| && p[i] == '?' && Question(st, p[i..], d) == Ok(q) && q.matched && j == i + q.consumed
    ensures Expand(st, Drop(p, i), d) == Prepend(q.text, Expand(st, Drop(p, j), d))
  {
    DropDrop(p, i, q.consumed, j);
  }

  lemma StepQuestionDeclined(st: VsState, p: string, i: nat, d: Option<string>, q: Step, j: nat)
    requires i < |p| && p[i] == '?' && Question(st, p[i..], d) == Ok(q) && !q.matched && j == i + q.consumed
    ensures j <= |p|
    ensures j == |p| ==> Expand(st, Drop(p, i), d) == Throw(IndexOutOfRange)
    ensures j < |p| ==> Expand(st, Drop(p, i), d) == DollarOrLiteral(st, p[j..], d)
  {
    if j < |p| {
      assert p[i..][q.consumed..] == p[j..];
    }
  }

  lemma StepOther(st: VsState, p: string, i: nat, d: Option<string>)
    requires i < |p| && p[i] != '\\' && p[i] != '?'
    ensures Expand(st, Drop(p, i), d) == DollarOrLiteral(st, p[i..], d)
  {
  }

  lemma StepDollarThrow(st: VsState, p: string, i: nat, d: Option<string>, e: Exception)
    requires i < |p| && p[i] == '$' && Dollar(st, p[i..], d) == Throw(e)
    ensures DollarOrLiteral(st, p[i..], d) == Throw(e)
  {
  }

  lemma StepDollar(st: VsState, p: string, i: nat, d: Option<string>, r: Step, j: nat)
    requires i < |p| && p[i] == '$' && Dollar(st, p[i..], d) == Ok(r) && j == i + r.consumed
    ensures DollarOrLiteral(st, p[i..], d) == Prepend(r.text, Expand(st, Drop(p, j), d))
  {
    DropDrop(p, i, r.consumed, j);
  }

  lemma StepLiteral(st: VsState, p: string, i: nat, d: Option<string>, j: nat)
    requires i < |p| && p[i] != '$' && j == i + 1
    ensures DollarOrLiteral(st, p[i..], d) == Prepend([p[i]], Expand(st, Drop(p, j), d))
  {
    DropDrop(p, i, 1, j);
  }

  /**
   * The `ParseImpl` loop invariant: what is built so far, followed by the rest
   * expanded, is `w` (the whole expansion).
   */
  ghost predicate Agrees(st: VsState, p: string, d: Option<string>, t: string, i: nat, w: Result<string>) {
    Prepend(t, Expand(st, Drop(p, i), d)) == w
  }

  /** The same, at a point where only the `$` and literal branches remain to be tried at `i`. */
  ghost predicate AgreesLate(st: VsState, p: string, d: Option<string>, t: string, i: nat, w: Result<string>)
    requires i < |p|
  {
    Prepend(t, DollarOrLiteral(st, p[i..], d)) == w
  }

  lemma AgreesStart(st: VsState, p: string, d: Option<string>)
    ensures Agrees(st, p, d, "", 0, Expand(st, p, d))
  {
    assert Drop(p, 0) == p;
    var x := Expand(st, p, d);
    if x.Ok? {
      assert "" + x.value == x.value;
    }
  }

  lemma AgreesEnd(st: VsState, p: string, d: Option<string>, t: string, i: nat, w: Result<string>)
    requires Agrees(st, p, d, t, i, w) && i >= |p|
    ensures w == Ok(t)
  {
    assert t + "" == t;
  }

  // The invariant carried across one branch of the loop: `t2` and `j` are the text and the cursor after it.

  lemma KeepEscapeLast(st: VsState, p: string, d: Option<string>, t: string, i: nat, w: Result<string>)
    requires i + 1 == |p| && p[i] == '\\' && Agrees(st, p, d, t, i, w)
    ensures w == Ok(t)
  {
    assert t + "" == t;
  }

  lemma KeepEscape(st: VsState, p: string, d: Option<string>, t: string, i: nat, w: Result<string>, t2: string, j: nat)
    requires i + 1 < |p| && p[i] == '\\' && Agrees(st, p, d, t, i, w) && t2 == t + [p[i + 1]] && j == i + 2
    ensures Agrees(st, p, d, t2, j, w)
  {
    StepEscape(st, p, i, d, j);
    PrependPrepend(t, [p[i + 1]], Expand(st, Drop(p, j), d), t2);
  }

  lemma KeepQuestionThrow(st: VsState, p: string, d: Option<string>, t: string, i: nat, w: Result<string>, e: Exception)
    requires i < |p| && p[i] == '?' && Question(st, p[i..], d) == Throw(e) && Agrees(st, p, d, t, i, w)
    ensures w == Throw(e)
  {
    StepQuestionThrow(st, p, i, d, e);
  }

  lemma KeepQuestion(st: VsState, p: string, d: Option<string>, t: string, i: nat, w: Result<string>, q: Step, t2: string, j: nat)
    requires i < |p| && p[i] == '?' && Question(st, p[i..], d) == Ok(q) && q.matched && Agrees(st, p, d, t, i, w)
    requires t2 == t + q.text && j == i + q.consumed
    ensures Agrees(st, p, d, t2, j, w)
  {
    StepQuestionMatched(st, p, i, d, q, j);
    PrependPrepend(t, q.text, Expand(st, Drop(p, j), d), t2);
  }

  lemma KeepDeclined(st: VsState, p: string, d: Option<string>, t: string, i: nat, w: Result<string>, q: Step, j: nat)
    requires i < |p| && p[i] == '?' && Question(st, p[i..], d) == Ok(q) && !q.matched && Agrees(st, p, d, t, i, w)
    requires j == i + q.consumed
    ensures j <= |p|
    ensures j == |p| ==> w == Throw(IndexOutOfRange)
    ensures j < |p| ==> AgreesLate(st, p, d, t, j, w)
  {
    StepQuestionDeclined(st, p, i, d, q, j);
  }

  lemma KeepOther(st: VsState, p: string, d: Option<string>, t: string, i: nat, w: Result<string>)
    requires i < |p| && p[i] != '\\' && p[i] != '?' && Agrees(st, p, d, t, i, w)
    ensures AgreesLate(st, p, d, t, i, w)
  {
    StepOther(st, p, i, d);
  }

  lemma KeepDollarThrow(st: VsState, p: string, d: Option<string>, t: string, i: nat, w: Result<string>, e: Exception)
    requires i < |p| && p[i] == '$' && Dollar(st, p[i..], d) == Throw(e) && AgreesLate(st, p, d, t, i, w)
    ensures w == Throw(e)
  {
    StepDollarThrow(st, p, i, d, e);
  }

  lemma KeepDollar(st: VsState, p: string, d: Option<string>, t: string, i: nat, w: Result<string>, r: Step, t2: string, j: nat)
    requires i < |p| && p[i] == '$' && Dollar(st, p[i..], d) == Ok(r) && AgreesLate(st, p, d, t, i, w)
    requires t2 == t + r.text && j == i + r.consumed
    ensures Agrees(st, p, d, t2, j, w)
  {
    StepDollar(st, p, i, d, r, j);
    PrependPrepend(t, r.text, Expand(st, Drop(p, j), d), t2);
  }

  lemma KeepLiteral(st: VsState, p: string, d: Option<string>, t: string, i: nat, w: Result<string>, t2: string, j: nat)
    requires i < |p| && p[i] != '$' && AgreesLate(st, p, d, t, i, w) && t2 == t + [p[i]] && j == i + 1
    ensures Agrees(st, p, d, t2, j, w)
  {
    StepLiteral(st, p, i, d, j);
    PrependPrepend(t, [p[i]], Expand(st, Drop(p, j), d), t2);
  }

  /** Where one branch of the `ParseImpl` loop leaves the loop: the text built so far and the cursor, or an exception. */
  datatype Advance = Moved(matched: bool, text: string, cursor: nat) | Failed(error: Exception)

  /** `Parsing.ParseFormatString`: a null template gives the empty string. */
  method ParseFormatString(st: VsState, pattern: Option<string>) returns (r: Result<string>)
    ensures pattern.None? ==> r == Ok("")
    ensures pattern.Some? ==> r == Expand(st, pattern.value, None)
  {
    if pattern.None? {
      return Ok("");
    }
    r := ParseImpl(st, pattern.value, None);
  }

  /** `Parsing.ParseImpl`, with the cursor starting at 0 as at both of its call sites. */
  method ParseImpl(st: VsState, pattern: string, singleDollar: Option<string>) returns (r: Result<string>)
    ensures r == Expand(st, pattern, singleDollar)
    decreases |pattern|, 1, 0
  {
    var transformed := "";
    var i: nat := 0;
    ghost var whole := Expand(st, pattern, singleDollar);
    AgreesStart(st, pattern, singleDollar);
    while i < |pattern|
      invariant Agrees(st, pattern, singleDollar, transformed, i, whole)
      decreases |pattern| - i
    {
      if pattern[i] == '\\' {
        ghost var t0, i0 := transformed, i;
        i := i + 1;
        if i == |pattern| {
          KeepEscapeLast(st, pattern, singleDollar, t0, i0, whole);
          return Ok(transformed);
        }
        transformed := transformed + [pattern[i]];
        i := i + 1;
        KeepEscape(st, pattern, singleDollar, t0, i0, whole, transformed, i);
      } else {
        if pattern[i] == '?' {
          var q := QuestionStep(st, pattern, singleDollar, transformed, i, whole);
          if q.Failed? {
            return Throw(q.error);
          }
          if q.matched {
            transformed, i := q.text, q.cursor;
            continue;
          }
          // a declined `?` falls through to the `$` test at the new cursor
          i := q.cursor;
          if i == |pattern| {
            return Throw(IndexOutOfRange);
          }
        } else {
          KeepOther(st, pattern, singleDollar, transformed, i, whole);
        }
        var next := DollarOrLiteralStep(st, pattern, singleDollar, transformed, i, whole);
        if next.Failed? {
          return Throw(next.error);
        }
        transformed, i := next.text, next.cursor;
      }
    }
    AgreesEnd(st, pattern, singleDollar, transformed, i, whole);
    return Ok(transformed);
  }

  /**
   * The `?` branch of the `ParseImpl` loop: whether `ParseQuestion` threw or
   * matched, the text built so far, and the new cursor.
   */
  method QuestionStep(st: VsState, pattern: string, singleDollar: Option<string>, transformed: string, i: nat, ghost w: Result<string>)
    returns (r: Advance)
    requires i < |pattern| && pattern[i] == '?' && Agrees(st, pattern, singleDollar, transformed, i, w)
    ensures r.Failed? ==> w == Throw(r.error)
    ensures r.Moved? && r.matched ==> i < r.cursor && Agrees(st, pattern, singleDollar, r.text, r.cursor, w)
    ensures r.Moved? && !r.matched ==> i < r.cursor <= |pattern| && r.text == transformed
    ensures r.Moved? && !r.matched && r.cursor == |pattern| ==> w == Throw(IndexOutOfRange)
    ensures r.Moved? && !r.matched && r.cursor < |pattern| ==> AgreesLate(st, pattern, singleDollar, transformed, r.cursor, w)
    decreases |pattern|, 0, 2
  {
    var q := ParseQuestion(st, pattern, i, singleDollar);
    match q
    case Throw(e) =>
      KeepQuestionThrow(st, pattern, singleDollar, transformed, i, w, e);
      r := Failed(e);
    case Ok(s) =>
      var cursor := i + s.consumed;
      if s.matched {
        var text := transformed + s.text;
        KeepQuestion(st, pattern, singleDollar, transformed, i, w, s, text, cursor);
        r := Moved(true, text, cursor);
      } else {
        KeepDeclined(st, pattern, singleDollar, transformed, i, w, s, cursor);
        r := Moved(false, transformed, cursor);
      }
  }

  /** The `$` and literal branches of the `ParseImpl` loop: the text built so far and the new cursor. */
  method DollarOrLiteralStep(st: VsState, pattern: string, singleDollar: Option<string>, transformed: string, i: nat, ghost w: Result<string>)
    returns (r: Advance)
    requires i < |pattern| && AgreesLate(st, pattern, singleDollar, transformed, i, w)
    ensures r.Failed? ==> w == Throw(r.error)
    ensures r.Moved? ==> i < r.cursor && Agrees(st, pattern, singleDollar, r.text, r.cursor, w)
  {
    if pattern[i] == '$' {
      var q := ParseDollar(st, pattern, i, singleDollar);
      match q
      case Throw(e) =>
        KeepDollarThrow(st, pattern, singleDollar, transformed, i, w, e);
        r := Failed(e);
      case Ok(s) =>
        var text, cursor := transformed + s.text, i + s.consumed;
        KeepDollar(st, pattern, singleDollar, transformed, i, w, s, text, cursor);
        r := Moved(true, text, cursor);
    } else {
      var text, cursor := transformed + [pattern[i]], i + 1;
      KeepLiteral(st, pattern, singleDollar, transformed, i, w, text, cursor);
      r := Moved(true, text, cursor);
    }
  }

  /** `SkipGroup` on a suffix is `SkipGroup` on the whole text, shifted. */
  lemma {:induction false} SkipGroupShift(p: string, i0: nat, n: nat)
    requires i0 + n < |p|
    ensures SkipGroup(p[i0..], n) == match SkipGroup(p, i0 + n) case Ok(k) => Ok(k - i0) case Throw(e) => Throw(e)
    decreases |p| - n
  {
    if i0 + n + 1 < |p| {
      assert p[i0..][n + 1] == p[i0 + n + 1];
      if p[i0 + n + 1] != '}' {
        SkipGroupShift(p, i0, n + 1);
      }
    }
  }

  /** The loop of `ParseQuestion` that skips the braced group of a false condition, the cursor on its `{`. */
  method SkipGroupFrom(pattern: string, i0: nat) returns (r: Result<nat>)
    requires i0 < |pattern|
    ensures r == SkipGroup(pattern, i0)
  {
    var i := i0;
    while i != |pattern|
      invariant i0 <= i < |pattern|
      invariant SkipGroup(pattern, i) == SkipGroup(pattern, i0)
      decreases |pattern| - i
    {
      i := i + 1;
      if i == |pattern| {
        // the next read of the template would index past its end
        return Throw(IndexOutOfRange);
      }
      if pattern[i] == '}' {
        i := i + 1;
        break;
      }
    }
    return Ok(i);
  }

  /** `Parsing.ParseQuestion` with the cursor on a `?`; `consumed` is how far it moves the cursor. */
  method ParseQuestion(st: VsState, pattern: string, i0: nat, singleDollar: Option<string>) returns (r: Result<Step>)
    requires i0 < |pattern| && pattern[i0] == '?'
    ensures r == Question(st, pattern[i0..], singleDollar)
    decreases |pattern| - i0, 0, 1
  {
    ghost var s := pattern[i0..];
    assert s[1..] == pattern[i0 + 1..];
    var tag := TakeWhile(pattern[i0 + 1..], IsQuestionTagChar);
    var i := i0 + 1 + |tag|;
    var valid := ResolveBooleanFirst(st, tag);
    if i == |pattern| {
      return Ok(Step(valid, "", i - i0));
    }
    if pattern[i] == '{' {
      if !valid {
        r := SkipFalseGroup(st, pattern, i0, tag, singleDollar);
      } else {
        r := ParseTrueGroup(st, pattern, i0, tag, singleDollar);
      }
    } else {
      return Ok(Step(false, "", i - i0));
    }
  }

  /** The part of `ParseQuestion` for a false condition followed by `{`: the group is skipped unexpanded. */
  method SkipFalseGroup(st: VsState, pattern: string, i0: nat, tag: string, singleDollar: Option<string>) returns (r: Result<Step>)
    requires i0 + 1 + |tag| < |pattern| && pattern[i0] == '?' && pattern[i0 + 1 + |tag|] == '{'
    requires !ResolveBooleanFirst(st, tag)
    ensures r == QuestionGroup(st, pattern[i0..], singleDollar, tag)
  {
    var i := i0 + 1 + |tag|;
    SkipGroupShift(pattern, i0, i - i0);
    var after :- SkipGroupFrom(pattern, i);
    return Ok(Step(false, "", after - i0));
  }

  /** The part of `ParseQuestion` for a true condition followed by `{`: the group is expanded with the tag's value as `$`. */
  method ParseTrueGroup(st: VsState, pattern: string, i0: nat, tag: string, singleDollar: Option<string>) returns (r: Result<Step>)
    requires i0 + 1 + |tag| < |pattern| && pattern[i0] == '?' && pattern[i0 + 1 + |tag|] == '{'
    requires ResolveBooleanFirst(st, tag)
    ensures r == QuestionGroup(st, pattern[i0..], singleDollar, tag)
    decreases |pattern| - i0, 0, 0
  {
    ghost var s := pattern[i0..];
    var i := i0 + 1 + |tag|;
    var value :- ResolveFirst(st, tag);
    var inner := TakeWhile(pattern[i + 1..], NotCloseBrace);
    assert s[i - i0 + 1..] == pattern[i + 1..];
    i := i + 1 + |inner| + 1;
    var body :- ParseImpl(st, inner, value);
    return Ok(Step(true, body, i - i0));
  }

  /** `Parsing.ParseDollar` with the cursor on a `$`; it always reports a match. */
  method ParseDollar(st: VsState, pattern: string, i0: nat, singleDollar: Option<string>) returns (r: Result<Step>)
    requires i0 < |pattern| && pattern[i0] == '$'
    ensures r == Dollar(st, pattern[i0..], singleDollar)
  {
    ghost var s := pattern[i0..];
    var i := i0 + 1;
    if i == |pattern| || IsWhiteSpace(pattern[i]) || IsNumber(pattern[i]) {
      i := i + 1;
      return Ok(Step(true, singleDollar.GetOr(""), i - i0));
    } else if pattern[i] == '{' {
      r := ParseDollarWords(st, pattern, i0);
    } else {
      r := ParseDollarIdentifier(st, pattern, i0);
    }
  }

  /** The `${…}` branch of `ParseDollar`. */
  method ParseDollarWords(st: VsState, pattern: string, i0: nat) returns (r: Result<Step>)
    requires i0 + 1 < |pattern| && pattern[i0] == '$' && pattern[i0 + 1] == '{'
    ensures r == DollarWords(st, pattern[i0..])
  {
    ghost var s := pattern[i0..];
    var i := i0 + 1;
    var braceExpr := TakeWhile(pattern[i + 1..], NotCloseBrace);
    assert s[2..] == pattern[i + 1..];
    i := i + 1 + |braceExpr|;
    if i != |pattern| && pattern[i] == '}' {
      i := i + 1;
    }
    var words :- ResolveWords(st, Split(braceExpr, ' '));
    return Ok(Step(true, Join(words, ' '), i - i0));
  }

  /** The identifier branch of `ParseDollar`. */
  method ParseDollarIdentifier(st: VsState, pattern: string, i0: nat) returns (r: Result<Step>)
    requires i0 + 1 < |pattern| && pattern[i0] == '$'
    ensures r == DollarIdentifier(st, pattern[i0..])
  {
    ghost var s := pattern[i0..];
    var i := i0 + 1;
    assert s[1..] == pattern[i..];
    var m := LeadingIdentifier(pattern[i..]);
    if m.None? {
      return Ok(Step(true, "", i - i0));
    }
    r := ParseDollarToken(st, pattern, i0, m.value);
  }

  /** `ParseDollar` once the identifier `ident` after the `$` at `i0` is read. */
  method ParseDollarToken(st: VsState, pattern: string, i0: nat, ident: string) returns (r: Result<Step>)
    requires i0 + 1 + |ident| <= |pattern| && pattern[i0] == '$'
    ensures r == DollarToken(st, pattern[i0..], ident)
  {
    ghost var s := pattern[i0..];
    ghost var n := 1 + |ident|;
    ghost var call := if n < |s| && s[n] == '(' then TakeWhile(s[n..], NotCloseParen) else "";
    ghost var closed := n < |s| && s[n] == '(' && n + |call| < |s|;
    var i := i0 + 1 + |ident|;
    var argExpr := "";
    var close := "";
    if i != |pattern| && pattern[i] == '(' {
      assert s[n..] == pattern[i..];
      argExpr := TakeWhile(pattern[i..], NotCloseParen);
      i := i + |argExpr|;
      if i != |pattern| && pattern[i] == ')' {
        i := i + 1;
        close := ")";
      }
    }
    assert argExpr == call && close == (if closed then ")" else "");
    assert i - i0 == n + |call| + (if closed then 1 else 0);
    var idenExpr := ident + argExpr + close;
    var value :- ResolveFirst(st, idenExpr);
    return Ok(Step(true, value.GetOr(idenExpr), i - i0));
  }
}
