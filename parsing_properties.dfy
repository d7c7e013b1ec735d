/**
 * What the format-string interpreter and the predicate parser of Parsing.cs
 * do with each construct, stated on `Expand` and `ParsePredicate` for all
 * inputs of the construct's shape.
 */
module ParsingProperties {
  import opened Wrappers
  import opened Text
  import opened Resolvers
  import opened Parsing

  /** A character the interpreter has no rule for: it is copied. */
  predicate IsPlain(c: char) { c != '\\' && c != '?' && c != '$' }

  predicate AllPlain(s: string) { forall k :: 0 <= k < |s| ==> IsPlain(s[k]) }

  /** A `?` tag as the code reads it: lowercase letters and `-` only. */
  predicate IsQuestionTag(tag: string) { forall k :: 0 <= k < |tag| ==> IsQuestionTagChar(tag[k]) }

  /** The text of a brace body: no `}` inside. */
  predicate NoCloseBrace(s: string) { forall k :: 0 <= k < |s| ==> s[k] != '}' }

  predicate NoCloseParen(s: string) { forall k :: 0 <= k < |s| ==> s[k] != ')' }

  /** `[a-z][a-z0-9-]*`. */
  predicate IsIdentifier(s: string) {
    s != [] && IsLower(s[0]) && forall k :: 0 <= k < |s| ==> IsIdentifierChar(s[k])
  }

  /** `t`'s text followed by `rest`'s, an exception in `t` coming first. */
  function Then(t: Result<string>, rest: Result<string>): Result<string> {
    match t
    case Throw(e) => Throw(e)
    case Ok(x) => Prepend(x, rest)
  }

  /** The text a lookup contributes: its value, or `token` when it is null. */
  function ValueOr(v: Result<Option<string>>, token: string): Result<string> {
    match v
    case Throw(e) => Throw(e)
    case Ok(x) => Ok(x.GetOr(token))
  }

  /** `body` expanded with the looked-up value as the bare-`$` value. */
  function BodyWith(st: VsState, v: Result<Option<string>>, body: string): Result<string> {
    match v
    case Throw(e) => Throw(e)
    case Ok(x) => Expand(st, body, x)
  }

  /** The space-separated words of `expr`, each resolved, joined by single spaces. */
  function ResolvedWordList(st: VsState, expr: string): Result<string> {
    var words :- ResolveWords(st, Split(expr, ' '));
    Ok(Join(words, ' '))
  }

  // ------------------------------------------------------ plain text and escapes

  /** A run of characters other than `\`, `?` and `$` is copied in order, and the rest follows. */
  lemma {:induction false} PlainPrefixCopied(st: VsState, a: string, rest: string, d: Option<string>)
    requires AllPlain(a)
    ensures Expand(st, a + rest, d) == Prepend(a, Expand(st, rest, d))
  {
    if a == [] {
      assert a + rest == rest;
      var x := Expand(st, rest, d);
      if x.Ok? {
        assert a + x.value == x.value;
      }
    } else {
      var s := a + rest;
      assert s[0] == a[0] && s[1..] == a[1..] + rest;
      PlainPrefixCopied(st, a[1..], rest, d);
      PrependPrepend([a[0]], a[1..], Expand(st, rest, d), a);
    }
  }

  /** A template of plain characters expands to itself. */
  lemma PlainCopied(st: VsState, s: string, d: Option<string>)
    requires AllPlain(s)
    ensures Expand(st, s, d) == Ok(s)
  {
    PlainPrefixCopied(st, s, [], d);
    assert s + [] == s;
  }

  /** `\c` emits `c` whatever `c` is, and a lone `\` at the end emits nothing. */
  lemma Escapes(st: VsState, c: char, rest: string, d: Option<string>)
    ensures Expand(st, ['\\', c] + rest, d) == Prepend([c], Expand(st, rest, d))
    ensures Expand(st, "\\", d) == Ok("")
  {
    var s := ['\\', c] + rest;
    assert s[0] == '\\' && s[1] == c && s[2..] == rest;
  }

  // ------------------------------------------------------ `?tag{…}`

  /** The tag read after `?` is the whole run of tag characters. */
  lemma QuestionTagOf(tag: string, rest: string, s: string)
    requires IsQuestionTag(tag) && (rest == [] || !IsQuestionTagChar(rest[0]))
    requires s == "?" + tag + rest
    ensures s != [] && s[0] == '?' && TakeWhile(s[1..], IsQuestionTagChar) == tag
  {
    assert s[1..] == tag + rest;
    TakeWhileOf(tag, rest, IsQuestionTagChar);
  }

  /** The skip loop stops just after the first `}`. */
  lemma SkipGroupStops(s: string, n: nat, body: string, m: nat)
    requires n + |body| + 1 < |s| && s[n + 1..n + 1 + |body|] == body && NoCloseBrace(body)
    requires s[n + 1 + |body|] == '}' && m == n + |body| + 2
    ensures SkipGroup(s, n) == Ok(m)
  {
    assert forall j :: n < j < n + 1 + |body| ==> s[j] == body[j - (n + 1)];
  }

  /** With no `}` after it, the skip loop runs off the end. */
  lemma SkipGroupUnclosed(s: string, n: nat)
    requires n < |s| && forall j :: n < j < |s| ==> s[j] != '}'
    ensures SkipGroup(s, n) == Throw(IndexOutOfRange)
  {
  }

  /** `?tag{body}` followed by `tail`, as the code reads it: the tag, the `{`, then the body up to the first `}`. */
  lemma GroupShape(tag: string, body: string, tail: string, s: string, n: nat, m: nat)
    requires IsQuestionTag(tag) && NoCloseBrace(body) && (tail == [] || tail[0] == '}')
    requires s == "?" + tag + "{" + body + tail && n == 1 + |tag| && m == n + |body| + 2
    ensures s != [] && s[0] == '?' && TakeWhile(s[1..], IsQuestionTagChar) == tag
    ensures n < |s| && s[n] == '{' && TakeWhile(s[n + 1..], NotCloseBrace) == body
    ensures tail != [] ==> m <= |s| && s[n + 1 + |body|] == '}' && s[n + 1..n + 1 + |body|] == body
    ensures Drop(s, m) == Drop(tail, 1)
  {
    GroupTag(tag, body, tail, s);
    GroupBody(tag, body, tail, s, n);
    GroupEnd(tag, body, tail, s, n, m);
  }

  /** The tag of `?tag{body}tail` is read up to its `{`. */
  lemma GroupTag(tag: string, body: string, tail: string, s: string)
    requires IsQuestionTag(tag) && s == "?" + tag + "{" + body + tail
    ensures s != [] && s[0] == '?' && TakeWhile(s[1..], IsQuestionTagChar) == tag
  {
    assert s == "?" + tag + ("{" + body + tail);
    QuestionTagOf(tag, "{" + body + tail, s);
  }

  /** The body of `?tag{body}tail` is read up to the first `}`. */
  lemma GroupBody(tag: string, body: string, tail: string, s: string, n: nat)
    requires NoCloseBrace(body) && (tail == [] || tail[0] == '}')
    requires s == "?" + tag + "{" + body + tail && n == 1 + |tag|
    ensures n < |s| && s[n] == '{' && TakeWhile(s[n + 1..], NotCloseBrace) == body
  {
    assert s[n + 1..] == body + tail;
    TakeWhileOf(body, tail, NotCloseBrace);
  }

  /** After the `}` of `?tag{body}tail` comes the rest of `tail`. */
  lemma GroupEnd(tag: string, body: string, tail: string, s: string, n: nat, m: nat)
    requires s == "?" + tag + "{" + body + tail && n == 1 + |tag| && m == n + |body| + 2
    requires tail == [] || tail[0] == '}'
    ensures tail != [] ==> m <= |s| && s[n + 1 + |body|] == '}' && s[n + 1..n + 1 + |body|] == body
    ensures Drop(s, m) == Drop(tail, 1)
  {
    if tail != [] {
      assert s[m..] == tail[1..];
    }
  }

  /** A declined `?` construct that consumed `c` characters and leaves `rest`. */
  lemma ExpandDeclined(st: VsState, s: string, d: Option<string>, c: nat, rest: string)
    requires s != [] && s[0] == '?' && Question(st, s, d) == Ok(Step(false, "", c)) && Drop(s, c) == rest
    ensures Expand(st, s, d) == if rest == [] then Throw(IndexOutOfRange) else DollarOrLiteral(st, rest, d)
  {
    if c < |s| {
      assert s[c..] == rest;
    }
  }

  /** A false `?tag{…}` is declined, the cursor after the skip loop. */
  lemma FalseQuestion(st: VsState, s: string, d: Option<string>, tag: string, after: nat)
    requires s != [] && s[0] == '?' && TakeWhile(s[1..], IsQuestionTagChar) == tag
    requires 1 + |tag| < |s| && s[1 + |tag|] == '{' && !ResolveBooleanFirst(st, tag)
    requires SkipGroup(s, 1 + |tag|) == Ok(after)
    ensures Question(st, s, d) == Ok(Step(false, "", after))
  {
  }

  /**
   * A false `?tag{body}` emits nothing and its text through the first `}` is
   * skipped; the character after it then goes to the `$` and copy branches
   * only, and if there is none the code reads past the end.
   */
  lemma FalseGroupSkipped(st: VsState, tag: string, body: string, rest: string, d: Option<string>)
    requires IsQuestionTag(tag) && !ResolveBooleanFirst(st, tag) && NoCloseBrace(body)
    ensures Expand(st, "?" + tag + "{" + body + "}" + rest, d) ==
      if rest == [] then Throw(IndexOutOfRange) else DollarOrLiteral(st, rest, d)
  {
    var s := "?" + tag + "{" + body + "}" + rest;
    var n := 1 + |tag|;
    var m := n + |body| + 2;
    GroupShape(tag, body, "}" + rest, s, n, m);
    assert ("}" + rest)[1..] == rest;
    FalseGroupDeclined(st, s, d, tag, body, n, m);
    ExpandDeclined(st, s, d, m, rest);
  }

  /** A false `?tag{body}` is declined, having consumed the group through its first `}`. */
  lemma FalseGroupDeclined(st: VsState, s: string, d: Option<string>, tag: string, body: string, n: nat, m: nat)
    requires s != [] && s[0] == '?' && TakeWhile(s[1..], IsQuestionTagChar) == tag && !ResolveBooleanFirst(st, tag)
    requires n == 1 + |tag| && n < |s| && s[n] == '{' && m == n + |body| + 2 && m <= |s|
    requires s[n + 1 + |body|] == '}' && s[n + 1..n + 1 + |body|] == body && NoCloseBrace(body)
    ensures Question(st, s, d) == Ok(Step(false, "", m))
  {
    SkipGroupStops(s, n, body, m);
    FalseQuestion(st, s, d, tag, m);
  }

  /** A false `?tag{` whose group is never closed reads past the end of the template. */
  lemma FalseGroupUnclosed(st: VsState, tag: string, body: string, d: Option<string>)
    requires IsQuestionTag(tag) && !ResolveBooleanFirst(st, tag) && NoCloseBrace(body)
    ensures Expand(st, "?" + tag + "{" + body, d) == Throw(IndexOutOfRange)
  {
    var s := "?" + tag + "{" + body;
    var n := 1 + |tag|;
    QuestionTagOf(tag, "{" + body, s);
    assert s[n] == '{';
    assert forall j :: n < j < |s| ==> s[j] == body[j - n - 1];
    SkipGroupUnclosed(s, n);
    assert Question(st, s, d) == Throw(IndexOutOfRange);
  }

  /**
   * After a skipped group the next character is never taken as an escape or a
   * conditional: a `\` or `?` there is copied as it stands.
   */
  lemma FalseGroupThenLiteral(st: VsState, tag: string, body: string, c: char, rest: string, d: Option<string>)
    requires IsQuestionTag(tag) && !ResolveBooleanFirst(st, tag) && NoCloseBrace(body) && c != '$'
    ensures Expand(st, "?" + tag + "{" + body + "}" + [c] + rest, d) == Prepend([c], Expand(st, rest, d))
  {
    var after := [c] + rest;
    assert "?" + tag + "{" + body + "}" + [c] + rest == "?" + tag + "{" + body + "}" + after;
    FalseGroupSkipped(st, tag, body, after, d);
    assert after[1..] == rest;
  }

  /** A construct that matched with the text `v` and consumed `c` characters. */
  function Emitted(v: Result<string>, c: nat): Result<Step> {
    match v
    case Throw(e) => Throw(e)
    case Ok(t) => Ok(Step(true, t, c))
  }

  /** A true `?tag{…}`: the body expanded with the tag's value, the cursor past the `}`. */
  lemma TrueQuestion(st: VsState, s: string, d: Option<string>, tag: string, body: string, m: nat)
    requires s != [] && s[0] == '?' && TakeWhile(s[1..], IsQuestionTagChar) == tag
    requires 1 + |tag| < |s| && s[1 + |tag|] == '{' && TakeWhile(s[1 + |tag| + 1..], NotCloseBrace) == body
    requires ResolveBooleanFirst(st, tag) && m == 1 + |tag| + 1 + |body| + 1
    ensures Question(st, s, d) == Emitted(BodyWith(st, ResolveFirst(st, tag), body), m)
  {
  }

  /** A `?` construct that matched with the text `v`, consumed `c` characters and leaves `rest`. */
  lemma ExpandMatched(st: VsState, s: string, d: Option<string>, v: Result<string>, c: nat, rest: string)
    requires s != [] && s[0] == '?' && Question(st, s, d) == Emitted(v, c) && Drop(s, c) == rest
    ensures Expand(st, s, d) == Then(v, Expand(st, rest, d))
  {
  }

  /**
   * A true `?tag{body}` emits `body` expanded with the value the first
   * applicable resolver gives for `tag` as the bare-`$` value, then the rest
   * expanded with the outer value; the body ends at the first `}`.
   */
  lemma TrueGroupExpanded(st: VsState, tag: string, body: string, rest: string, d: Option<string>)
    requires IsQuestionTag(tag) && ResolveBooleanFirst(st, tag) && NoCloseBrace(body)
    ensures Expand(st, "?" + tag + "{" + body + "}" + rest, d) ==
      Then(BodyWith(st, ResolveFirst(st, tag), body), Expand(st, rest, d))
  {
    var s := "?" + tag + "{" + body + "}" + rest;
    var n := 1 + |tag|;
    var m := n + |body| + 2;
    GroupShape(tag, body, "}" + rest, s, n, m);
    assert ("}" + rest)[1..] == rest;
    TrueQuestion(st, s, d, tag, body, m);
    ExpandMatched(st, s, d, BodyWith(st, ResolveFirst(st, tag), body), m, rest);
  }

  /** A true `?tag{body` without a `}` expands the whole body; the cursor passes the end harmlessly. */
  lemma TrueGroupUnclosed(st: VsState, tag: string, body: string, d: Option<string>)
    requires IsQuestionTag(tag) && ResolveBooleanFirst(st, tag) && NoCloseBrace(body)
    ensures Expand(st, "?" + tag + "{" + body, d) == BodyWith(st, ResolveFirst(st, tag), body)
  {
    var s := "?" + tag + "{" + body;
    var n := 1 + |tag|;
    var m := n + |body| + 2;
    assert s == "?" + tag + "{" + body + [];
    GroupShape(tag, body, [], s, n, m);
    TrueQuestion(st, s, d, tag, body, m);
    var v := BodyWith(st, ResolveFirst(st, tag), body);
    ExpandMatched(st, s, d, v, m, []);
    if v.Ok? {
      assert v.value + "" == v.value;
    }
  }

  /**
   * A `?tag` followed by anything but `{` emits nothing and is consumed; the
   * next character goes to the `$` and copy branches.
   */
  lemma TagWithoutGroup(st: VsState, tag: string, rest: string, d: Option<string>)
    requires IsQuestionTag(tag) && rest != [] && rest[0] != '{' && !IsQuestionTagChar(rest[0])
    ensures Expand(st, "?" + tag + rest, d) == DollarOrLiteral(st, rest, d)
  {
    var s := "?" + tag + rest;
    var n := 1 + |tag|;
    QuestionTagOf(tag, rest, s);
    assert s[n] == rest[0] && s[n..] == rest;
    assert Question(st, s, d) == Ok(Step(false, "", n));
  }

  /** A `?tag` that ends the template is fine when true and reads past the end when false. */
  lemma TagAtEnd(st: VsState, tag: string, d: Option<string>)
    requires IsQuestionTag(tag)
    ensures Expand(st, "?" + tag, d) == if ResolveBooleanFirst(st, tag) then Ok("") else Throw(IndexOutOfRange)
  {
    var s := "?" + tag;
    QuestionTagOf(tag, [], s + []);
    assert s + [] == s;
    assert Question(st, s, d) == Ok(Step(ResolveBooleanFirst(st, tag), "", |s|));
    assert Drop(s, |s|) == [];
    assert "" + "" == "";
  }

  // ------------------------------------------------------ `$`

  /** A bare `$` before whitespace or a digit emits the enclosing value (or "") and swallows that character. */
  lemma BareDollar(st: VsState, c: char, rest: string, d: Option<string>)
    requires IsWhiteSpace(c) || IsNumber(c)
    ensures Expand(st, ['$', c] + rest, d) == Prepend(d.GetOr(""), Expand(st, rest, d))
  {
    var s := ['$', c] + rest;
    assert s[0] == '$' && s[1] == c;
    assert Dollar(st, s, d) == Ok(Step(true, d.GetOr(""), 2));
    assert Drop(s, 2) == rest;
  }

  /** A `$` that ends the template emits the enclosing value (or ""). */
  lemma BareDollarAtEnd(st: VsState, t: string, d: Option<string>)
    requires AllPlain(t)
    ensures Expand(st, t + "$", d) == Ok(t + d.GetOr(""))
  {
    PlainPrefixCopied(st, t, "$", d);
    var v := d.GetOr("");
    assert Dollar(st, "$", d) == Ok(Step(true, v, 2));
    assert Drop("$", 2) == [];
    assert v + "" == v;
  }

  /** Each word of a `${…}` list is looked up alone and stands for itself when unresolved. */
  lemma {:induction false} ResolveWordsEach(st: VsState, words: seq<string>)
    ensures ResolveWords(st, words).Ok? ==>
      forall k :: 0 <= k < |words| ==>
        ResolveFirst(st, words[k]).Ok? && ResolveWords(st, words).value[k] == ResolveFirst(st, words[k]).value.GetOr(words[k])
    ensures ResolveWords(st, words).Throw? ==> exists k :: 0 <= k < |words| && ResolveFirst(st, words[k]).Throw?
  {
    if words != [] {
      ResolveWordsEach(st, words[1..]);
      var r := ResolveWords(st, words);
      if r.Ok? {
        forall k | 1 <= k < |words|
          ensures ResolveFirst(st, words[k]).Ok? && r.value[k] == ResolveFirst(st, words[k]).value.GetOr(words[k])
        {
          assert words[1..][k - 1] == words[k];
        }
      }
      if r.Throw? && ResolveFirst(st, words[0]).Ok? {
        var k :| 0 <= k < |words[1..]| && ResolveFirst(st, words[1..][k]).Throw?;
        assert words[k + 1] == words[1..][k];
      }
    }
  }

  /** `${w1 w2 …}` emits the resolved words joined by single spaces; the `}` is consumed. */
  lemma WordList(st: VsState, expr: string, rest: string, d: Option<string>)
    requires NoCloseBrace(expr)
    ensures Expand(st, "${" + expr + "}" + rest, d) ==
      Then(ResolvedWordList(st, expr), Expand(st, rest, d))
  {
    var s := "${" + expr + "}" + rest;
    WordsShape(expr, rest, s);
    WordsEmitted(st, s, d, expr);
    ExpandToken(st, s, d, ResolvedWordList(st, expr), |expr| + 3, rest);
  }

  /** `${expr}rest` read back: the words run to the `}`, and `rest` follows it. */
  lemma WordsShape(expr: string, rest: string, s: string)
    requires NoCloseBrace(expr) && s == "${" + expr + "}" + rest
    ensures |s| >= 2 && s[0] == '$' && s[1] == '{' && TakeWhile(s[2..], NotCloseBrace) == expr
    ensures 2 + |expr| < |s| && s[2 + |expr|] == '}' && Drop(s, |expr| + 3) == rest
  {
    assert s[2..] == expr + ("}" + rest);
    TakeWhileOf(expr, "}" + rest, NotCloseBrace);
    assert s[|expr| + 3..] == rest;
  }

  /** With the words read to a `}`, the `${` branch emits the resolved list and consumes the `}`. */
  lemma WordsEmitted(st: VsState, s: string, d: Option<string>, expr: string)
    requires |s| >= 2 && s[0] == '$' && s[1] == '{' && TakeWhile(s[2..], NotCloseBrace) == expr
    requires 2 + |expr| < |s| && s[2 + |expr|] == '}'
    ensures Dollar(st, s, d) == Emitted(ResolvedWordList(st, expr), |expr| + 3)
  {
  }

  /** A `$` construct that yields the text `v` and leaves `rest`. */
  lemma ExpandToken(st: VsState, s: string, d: Option<string>, v: Result<string>, c: nat, rest: string)
    requires s != [] && s[0] == '$' && Dollar(st, s, d) == Emitted(v, c) && Drop(s, c) == rest
    ensures Expand(st, s, d) == Then(v, Expand(st, rest, d))
  {
  }

  /** `$` then an identifier: the identifier branch, with that identifier. */
  lemma DollarIsToken(st: VsState, s: string, d: Option<string>, ident: string, tail: string)
    requires IsIdentifier(ident) && (tail == [] || !IsIdentifierChar(tail[0])) && s == "$" + ident + tail
    ensures |s| >= 2 && s[0] == '$' && 1 + |ident| <= |s|
    ensures Dollar(st, s, d) == DollarToken(st, s, ident)
  {
    DollarShape(ident, tail, s);
    DollarLower(st, s, d);
    LeadingIdentifierOf(ident, tail);
  }

  /** `$ident tail` read back: the `$`, the identifier's first letter, then the identifier and the tail. */
  lemma DollarShape(ident: string, tail: string, s: string)
    requires ident != [] && s == "$" + ident + tail
    ensures |s| >= 2 && s[0] == '$' && s[1] == ident[0] && 1 + |ident| <= |s| && s[1..] == ident + tail
  {
    assert s[1..] == ident + tail;
  }

  /** A lowercase letter after `$` takes the identifier branch. */
  lemma DollarLower(st: VsState, s: string, d: Option<string>)
    requires |s| >= 2 && s[0] == '$' && IsLower(s[1])
    ensures Dollar(st, s, d) == DollarIdentifier(st, s)
  {
  }

  /** The same text grouped two ways. */
  lemma CallPieces(ident: string, args: string, rest: string, s: string, tail: string, token: string)
    requires s == "$" + ident + "(" + args + ")" + rest && tail == "(" + args + ")" + rest
    requires token == ident + "(" + args + ")"
    ensures s == "$" + ident + tail && token == ident + ("(" + args) + ")"
  {
  }

  /** `$ident(args)` followed by `rest`, as the code reads it. */
  lemma CallShape(s: string, ident: string, args: string, rest: string, n: nat, m: nat)
    requires NoCloseParen(args) && s == "$" + ident + "(" + args + ")" + rest
    requires n == 1 + |ident| && m == |ident| + |args| + 3
    ensures n < |s| && s[n] == '(' && TakeWhile(s[n..], NotCloseParen) == "(" + args
    ensures n + |args| + 1 < |s| && Drop(s, m) == rest
  {
    assert s[n..] == ("(" + args) + (")" + rest);
    TakeWhileOf("(" + args, ")" + rest, NotCloseParen);
    assert s[m..] == rest;
  }

  /** A `(…)` after the identifier, closed, joins the token and is consumed with it. */
  lemma DollarTokenCall(st: VsState, s: string, ident: string, call: string, token: string, m: nat)
    requires 1 + |ident| < |s| && s[0] == '$' && s[1 + |ident|] == '('
    requires TakeWhile(s[1 + |ident|..], NotCloseParen) == call && 1 + |ident| + |call| < |s|
    requires token == ident + call + ")" && m == 1 + |ident| + |call| + 1
    ensures DollarToken(st, s, ident) == Emitted(ValueOr(ResolveFirst(st, token), token), m)
  {
  }

  /**
   * `$ident(args)` looks up the whole token `ident(args)` and emits the value,
   * or the token itself when no resolver applies or the value is null.
   */
  lemma CallToken(st: VsState, ident: string, args: string, rest: string, d: Option<string>)
    requires IsIdentifier(ident) && NoCloseParen(args)
    ensures Expand(st, "$" + ident + "(" + args + ")" + rest, d) ==
      Then(ValueOr(ResolveFirst(st, ident + "(" + args + ")"), ident + "(" + args + ")"), Expand(st, rest, d))
  {
    var s := "$" + ident + "(" + args + ")" + rest;
    var token := ident + "(" + args + ")";
    var m := |ident| + |args| + 3;
    var tail := "(" + args + ")" + rest;
    CallPieces(ident, args, rest, s, tail, token);
    DollarIsToken(st, s, d, ident, tail);
    CallShape(s, ident, args, rest, 1 + |ident|, m);
    DollarTokenCall(st, s, ident, "(" + args, token, m);
    ExpandToken(st, s, d, ValueOr(ResolveFirst(st, token), token), m, rest);
  }

  /** The token of `$ident…` without a `(` is `ident`. */
  lemma PlainTokenStep(st: VsState, s: string, ident: string, rest: string, n: nat)
    requires IsIdentifier(ident) && (rest == [] || rest[0] != '(')
    requires s == "$" + ident + rest && n == 1 + |ident|
    ensures 1 + |ident| <= |s| && s[0] == '$'
    ensures DollarToken(st, s, ident) == Emitted(ValueOr(ResolveFirst(st, ident), ident), n)
    ensures Drop(s, n) == rest
  {
    assert ident + "" + "" == ident;
    assert n < |s| ==> s[n] == rest[0];
    assert Drop(s, n) == rest;
  }

  /** `$ident` not followed by `(` looks up `ident` alone. */
  lemma PlainToken(st: VsState, ident: string, rest: string, d: Option<string>)
    requires IsIdentifier(ident) && (rest == [] || (!IsIdentifierChar(rest[0]) && rest[0] != '('))
    ensures Expand(st, "$" + ident + rest, d) == Then(ValueOr(ResolveFirst(st, ident), ident), Expand(st, rest, d))
  {
    var s := "$" + ident + rest;
    var n := 1 + |ident|;
    DollarIsToken(st, s, d, ident, rest);
    PlainTokenStep(st, s, ident, rest, n);
    ExpandToken(st, s, d, ValueOr(ResolveFirst(st, ident), ident), n, rest);
  }

  /** An unresolved token is emitted as written. */
  lemma UnresolvedToken(st: VsState, token: string)
    requires FirstApplicable(st.resolvers, token).None?
    ensures ValueOr(ResolveFirst(st, token), token) == Ok(token)
  {
  }

  /**
   * With a character other than a lowercase letter, a space, a digit or `{`
   * after `$`, the code resolves the next lowercase run further on but moves
   * the cursor by that run's length from the `$`, so part of the text is read twice.
   */
  lemma DollarSkipsAhead(ctx: Context)
    ensures Expand(VsState([], ctx), "$!ab", None) == Ok("abb")
  {
    var st := VsState([], ctx);
    var s := "$!ab";
    assert s[0] == '$' && s[1] == '!';
    assert s[1..] == "!ab" && "!ab"[1..] == "ab";
    assert TakeWhile("ab", IsIdentifierChar) == "ab";
    assert LeadingIdentifier(s[1..]) == Some("ab");
    assert Dollar(st, s, None) == DollarToken(st, s, "ab");
    assert s[3] == 'b' && "ab" + "" + "" == "ab";
    assert ResolveFirst(st, "ab") == Ok(None);
    assert DollarToken(st, s, "ab") == Emitted(Ok("ab"), 3);
    assert Drop(s, 3) == "b";
    ExpandToken(st, s, None, Ok("ab"), 3, "b");
    PlainCopied(st, "b", None);
    assert "ab" + "b" == "abb";
  }

  // ------------------------------------------------------ ParsePredicate

  predicate AllWhiteSpace(s: string) { forall k :: 0 <= k < |s| ==> IsWhiteSpace(s[k]) }

  predicate NoTagChar(s: string) { forall k :: 0 <= k < |s| ==> !IsPredicateTagChar(s[k]) }

  predicate IsPredicateTag(s: string) { s != [] && forall k :: 0 <= k < |s| ==> IsPredicateTagChar(s[k]) }

  /** The match starts at the first tag character, and the tag is the whole run from there. */
  lemma {:induction false} PredicateMatchSkips(junk: string, x: string)
    requires NoTagChar(junk)
    ensures PredicateMatch(junk + x) == PredicateMatch(x)
  {
    if junk != [] {
      var s := junk + x;
      assert s[0] == junk[0] && s[1..] == junk[1..] + x;
      PredicateMatchSkips(junk[1..], x);
    } else {
      assert junk + x == x;
    }
  }

  /** At a tag character the match is the run of tag characters and the optional group right after it. */
  lemma PredicateMatchAt(tag: string, after: string, x: string)
    requires IsPredicateTag(tag) && (after == [] || !IsPredicateTagChar(after[0])) && x == tag + after
    ensures PredicateMatch(x) == Some((tag, PatternGroup(after).GetOr("")))
  {
    assert x[0] == tag[0];
    TakeWhileOf(tag, after, IsPredicateTagChar);
    assert x[|tag|..] == after;
  }

  /** The optional group once its pieces are found: `k` spaces, `=~`, then `y` with `p` leading spaces. */
  lemma PatternGroupFrom(after: string, k: nat, y: string, p: nat)
    requires |TakeWhile(after, IsWhiteSpace)| == k && k <= |after| && StartsWith(after[k..], "=~")
    requires after[k..][2..] == y && |TakeWhile(y, IsWhiteSpace)| == p
    ensures PatternGroup(after) == PatternFrom(y, p)
  {
  }

  /** A run of spaces followed by something else: `\s*` takes exactly the run. */
  lemma SpacesThen(ws: string, t: string, s: string)
    requires AllWhiteSpace(ws) && (t == [] || !IsWhiteSpace(t[0])) && s == ws + t
    ensures TakeWhile(s, IsWhiteSpace) == ws && |ws| <= |s| && s[|ws|..] == t
  {
    TakeWhileOf(ws, t, IsWhiteSpace);
  }

  lemma OperatorThen(t: string, y: string)
    requires t == "=~" + y
    ensures StartsWith(t, "=~") && t[2..] == y
  {
  }

  lemma Regroup(a: string, b: string, c: string, e: string)
    ensures a + b + c + e == a + (b + c + e) && b + c + e == b + (c + e)
  {
  }

  /** `\s*=~\s*(.+)`: the pattern is the line after the spaces. */
  lemma PatternGroupOf(ws1: string, ws2: string, pat: string, after: string)
    requires AllWhiteSpace(ws1) && AllWhiteSpace(ws2) && after == ws1 + "=~" + ws2 + pat
    requires pat != [] && !IsWhiteSpace(pat[0]) && forall k :: 0 <= k < |pat| ==> pat[k] != '\n'
    ensures PatternGroup(after) == Some(pat)
  {
    var y := ws2 + pat;
    var t := "=~" + y;
    Regroup(ws1, "=~", ws2, pat);
    SpacesThen(ws1, t, after);
    OperatorThen(t, y);
    SpacesThen(ws2, pat, y);
    PatternGroupFrom(after, |ws1|, y, |ws2|);
    assert pat == pat + [];
    TakeWhileOf(pat, [], NotNewline);
  }

  /** `tag =~ pattern`, with any spacing around `=~`, parses to the tag and the rest of the line. */
  lemma PredicateWithPattern(junk: string, tag: string, ws1: string, ws2: string, pat: string)
    requires NoTagChar(junk) && IsPredicateTag(tag) && AllWhiteSpace(ws1) && AllWhiteSpace(ws2)
    requires pat != [] && !IsWhiteSpace(pat[0]) && forall k :: 0 <= k < |pat| ==> pat[k] != '\n'
    ensures ParsePredicate(junk + tag + ws1 + "=~" + ws2 + pat) == Ok((tag, pat))
  {
    var after := ws1 + "=~" + ws2 + pat;
    var x := tag + after;
    assert junk + tag + ws1 + "=~" + ws2 + pat == junk + x;
    PredicateMatchSkips(junk, x);
    assert after[0] == if ws1 == [] then '=' else ws1[0];
    PredicateMatchAt(tag, after, x);
    PatternGroupOf(ws1, ws2, pat, after);
  }

  /** Spaces then anything but `=~`: no pattern group. */
  lemma NoPatternGroup(ws: string, rest: string, after: string)
    requires AllWhiteSpace(ws) && after == ws + rest
    requires rest == [] || (!IsWhiteSpace(rest[0]) && !StartsWith(rest, "=~"))
    ensures PatternGroup(after) == None
  {
    if rest != [] {
      SpacesThen(ws, rest, after);
    } else {
      assert after == ws + [];
      SpacesThen(ws, [], after);
    }
  }

  /** A tag with no `=~` after it parses to the tag and an empty pattern. */
  lemma PredicateWithoutPattern(junk: string, tag: string, ws: string, rest: string)
    requires NoTagChar(junk) && IsPredicateTag(tag) && AllWhiteSpace(ws)
    requires rest == [] || (!IsWhiteSpace(rest[0]) && !IsPredicateTagChar(rest[0]) && !StartsWith(rest, "=~"))
    ensures ParsePredicate(junk + tag + ws + rest) == Ok((tag, ""))
  {
    var after := ws + rest;
    var x := tag + after;
    assert junk + tag + ws + rest == junk + x;
    PredicateMatchSkips(junk, x);
    assert after == [] || after[0] == if ws == [] then rest[0] else ws[0];
    PredicateMatchAt(tag, after, x);
    NoPatternGroup(ws, rest, after);
  }

  /** From the end of a run of blanks, `.` can only start at the last one. */
  lemma LastBlank(ws2: string)
    requires ws2 != [] && forall k :: 0 <= k < |ws2| ==> ws2[k] == ' '
    ensures PatternFrom(ws2, |ws2|) == Some(" ")
  {
    var k := |ws2| - 1;
    assert ws2[k..] == " " + [];
    TakeWhileOf(" ", [], NotNewline);
    assert PatternFrom(ws2, k) == Some(" ");
  }

  /** `\s*=~` then only blanks. */
  lemma PatternGroupBlanks(ws1: string, ws2: string, after: string)
    requires AllWhiteSpace(ws1) && after == ws1 + "=~" + ws2
    requires ws2 != [] && forall k :: 0 <= k < |ws2| ==> ws2[k] == ' '
    ensures PatternGroup(after) == Some(" ")
  {
    var t := "=~" + ws2;
    assert after == ws1 + t;
    SpacesThen(ws1, t, after);
    OperatorThen(t, ws2);
    assert ws2 == ws2 + [];
    SpacesThen(ws2, [], ws2);
    PatternGroupFrom(after, |ws1|, ws2, |ws2|);
    LastBlank(ws2);
  }

  /**
   * `=~` followed only by blanks: the greedy `\s*` gives the last one back so
   * that `.+` can match it, and the pattern is a single space.
   */
  lemma PredicateTrailingSpaces(junk: string, tag: string, ws1: string, ws2: string)
    requires NoTagChar(junk) && IsPredicateTag(tag) && AllWhiteSpace(ws1)
    requires ws2 != [] && forall k :: 0 <= k < |ws2| ==> ws2[k] == ' '
    ensures ParsePredicate(junk + tag + ws1 + "=~" + ws2) == Ok((tag, " "))
  {
    var after := ws1 + "=~" + ws2;
    var x := tag + after;
    assert junk + tag + ws1 + "=~" + ws2 == junk + x;
    PredicateMatchSkips(junk, x);
    assert after[0] == if ws1 == [] then '=' else ws1[0];
    PredicateMatchAt(tag, after, x);
    PatternGroupBlanks(ws1, ws2, after);
  }
}
