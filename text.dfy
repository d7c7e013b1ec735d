/** .NET string primitives the resolvers and the parser rely on. */
module Text {
  import opened Wrappers

  /** `char.IsWhiteSpace`, which is also the set the regex class `\s` denotes. */
  predicate IsWhiteSpace(c: char) {
    ('\U{9}' <= c <= '\U{D}') || c == ' ' || c == '\U{85}' || c == '\U{A0}' ||
    c == '\U{1680}' || ('\U{2000}' <= c <= '\U{200A}') || c == '\U{2028}' ||
    c == '\U{2029}' || c == '\U{202F}' || c == '\U{205F}' || c == '\U{3000}'
  }

  predicate IsLower(c: char) { 'a' <= c <= 'z' }
  predicate IsUpper(c: char) { 'A' <= c <= 'Z' }
  predicate IsDigit(c: char) { '0' <= c <= '9' }

  /** Case folding as `RegexOptions.IgnoreCase` applies it, restricted to ASCII letters. */
  function ToLower(c: char): (r: char)
    ensures IsUpper(c) ==> IsLower(r)
    ensures !IsUpper(c) ==> r == c
  {
    if IsUpper(c) then (c as int + 32) as char else c
  }

  predicate SameIgnoringCase(a: char, b: char) { ToLower(a) == ToLower(b) }

  predicate StartsWith(s: string, prefix: string) {
    |prefix| <= |s| && s[..|prefix|] == prefix
  }

  /** `TrimPrefix`: drop the prefix if present. */
  function TrimPrefix(s: string, prefix: string): (r: string)
    ensures StartsWith(s, prefix) ==> s == prefix + r
    ensures !StartsWith(s, prefix) ==> r == s
  {
    if StartsWith(s, prefix) then s[|prefix|..] else s
  }

  /** The index of the first character at or after `i` that is not white space, or `|s|`. */
  function SpaceEnd(s: string, i: nat): (n: nat)
    requires i <= |s|
    ensures i <= n <= |s|
    ensures forall k :: i <= k < n ==> IsWhiteSpace(s[k])
    ensures n == |s| || !IsWhiteSpace(s[n])
    decreases |s| - i
  {
    if i < |s| && IsWhiteSpace(s[i]) then SpaceEnd(s, i + 1) else i
  }

  /** The index just after the last character before `j` that is not white space, or 0. */
  function SpaceStart(s: string, j: nat): (n: nat)
    requires j <= |s|
    ensures n <= j
    ensures forall k :: n <= k < j ==> IsWhiteSpace(s[k])
    ensures n == 0 || !IsWhiteSpace(s[n - 1])
  {
    if j > 0 && IsWhiteSpace(s[j - 1]) then SpaceStart(s, j - 1) else j
  }

  function TrimStart(s: string): (r: string)
    ensures |r| <= |s|
    ensures forall k :: 0 <= k < |r| ==> r[k] == s[|s| - |r| + k]
    ensures r == [] || !IsWhiteSpace(r[0])
    ensures forall k :: 0 <= k < |s| - |r| ==> IsWhiteSpace(s[k])
  {
    s[SpaceEnd(s, 0)..]
  }

  function TrimEnd(s: string): (r: string)
    ensures |r| <= |s|
    ensures forall k :: 0 <= k < |r| ==> r[k] == s[k]
    ensures r == [] || !IsWhiteSpace(r[|r| - 1])
    ensures forall k :: |r| <= k < |s| ==> IsWhiteSpace(s[k])
  {
    s[..SpaceStart(s, |s|)]
  }

  function Trim(s: string): string {
    TrimEnd(TrimStart(s))
  }

  /** Leading white space is exactly what `TrimStart` removes. */
  lemma TrimStartOf(lead: string, x: string)
    requires forall k :: 0 <= k < |lead| ==> IsWhiteSpace(lead[k])
    requires x != [] && !IsWhiteSpace(x[0])
    ensures TrimStart(lead + x) == x
  {
    var s := lead + x;
    var r := TrimStart(s);
    assert s[|lead|] == x[0];
    assert s[|s| - |x|..] == x;
  }

  /** Trailing white space is exactly what `TrimEnd` removes. */
  lemma TrimEndOf(x: string, trail: string)
    requires x != [] && !IsWhiteSpace(x[|x| - 1])
    requires forall k :: 0 <= k < |trail| ==> IsWhiteSpace(trail[k])
    ensures TrimEnd(x + trail) == x
  {
    var s := x + trail;
    var r := TrimEnd(s);
    assert s[|x| - 1] == x[|x| - 1];
    assert s[..|x|] == x;
  }

  /** `Trim` gives back a text framed by white space when the text itself neither starts nor ends with white space. */
  lemma TrimOf(lead: string, x: string, trail: string)
    requires forall k :: 0 <= k < |lead| ==> IsWhiteSpace(lead[k])
    requires x != [] && !IsWhiteSpace(x[0]) && !IsWhiteSpace(x[|x| - 1])
    requires forall k :: 0 <= k < |trail| ==> IsWhiteSpace(trail[k])
    ensures Trim(lead + x + trail) == x
  {
    assert lead + x + trail == lead + (x + trail);
    assert (x + trail)[0] == x[0];
    TrimStartOf(lead, x + trail);
    TrimEndOf(x, trail);
  }

  /** `TrimEnd` never cuts into a prefix that ends in a non-blank character. */
  lemma TrimEndKeeps(a: string, b: string)
    requires a != [] && !IsWhiteSpace(a[|a| - 1])
    ensures StartsWith(TrimEnd(a + b), a)
  {
    var s := a + b;
    assert s[|a| - 1] == a[|a| - 1];
    assert s[..|a|] == a;
  }

  /** Trimming a run bounded by non-blank characters keeps the run, followed by nothing or white space. */
  lemma TrimmedRun(lead: string, a: string, rest: string, s: string)
    requires s == lead + (a + rest)
    requires forall k :: 0 <= k < |lead| ==> IsWhiteSpace(lead[k])
    requires a != [] && !IsWhiteSpace(a[0]) && !IsWhiteSpace(a[|a| - 1])
    requires rest == [] || IsWhiteSpace(rest[0])
    ensures StartsWith(Trim(s), a)
    ensures |Trim(s)| == |a| || IsWhiteSpace(Trim(s)[|a|])
  {
    var x := a + rest;
    assert x[0] == a[0];
    TrimStartOf(lead, x);
    TrimEndRun(a, rest);
  }

  /** `TrimEnd` of a run ending in a non-blank character, followed by white space, keeps the run. */
  lemma TrimEndRun(a: string, rest: string)
    requires a != [] && !IsWhiteSpace(a[|a| - 1])
    requires rest == [] || IsWhiteSpace(rest[0])
    ensures StartsWith(TrimEnd(a + rest), a)
    ensures |TrimEnd(a + rest)| == |a| || IsWhiteSpace(TrimEnd(a + rest)[|a|])
  {
    TrimEndKeeps(a, rest);
    var t := TrimEnd(a + rest);
    if |t| > |a| {
      assert t[|a|] == (a + rest)[|a|] == rest[0];
    }
  }

  /** The longest prefix of `s` all of whose characters satisfy `p` (LINQ `TakeWhile`). */
  function TakeWhile(s: string, p: char -> bool): (r: string)
    ensures |r| <= |s| && r == s[..|r|]
    ensures forall k :: 0 <= k < |r| ==> p(r[k])
    ensures |r| < |s| ==> !p(s[|r|])
  {
    if s != [] && p(s[0]) then [s[0]] + TakeWhile(s[1..], p) else []
  }

  /** `TakeWhile` stops exactly after a run of accepted characters followed by a rejected one (or the end). */
  lemma {:induction false} TakeWhileOf(a: string, rest: string, p: char -> bool)
    requires forall k :: 0 <= k < |a| ==> p(a[k])
    requires rest == [] || !p(rest[0])
    ensures TakeWhile(a + rest, p) == a
  {
    if a == [] {
      assert a + rest == rest;
    } else {
      TakeWhileOf(a[1..], rest, p);
      assert (a + rest)[1..] == a[1..] + rest;
    }
  }

  /** `String.Split(d)`: always at least one piece; no piece contains `d`. */
  function Split(s: string, d: char): (r: seq<string>)
    ensures |r| >= 1
    ensures forall k :: 0 <= k < |r| ==> d !in r[k]
  {
    if s == [] then [""]
    else if s[0] == d then [""] + Split(s[1..], d)
    else
      var t := Split(s[1..], d);
      [[s[0]] + t[0]] + t[1..]
  }

  /** `String.Join(d, xs)` on a non-empty list, which is also `Aggregate((a, b) => a + d + b)`. */
  function Join(xs: seq<string>, d: char): string
    requires |xs| >= 1
  {
    if |xs| == 1 then xs[0] else xs[0] + [d] + Join(xs[1..], d)
  }

  lemma {:induction false} JoinSplit(s: string, d: char)
    ensures Join(Split(s, d), d) == s
  {
    if s == [] {
    } else if s[0] == d {
      JoinSplit(s[1..], d);
      assert Split(s, d) == [""] + Split(s[1..], d);
    } else {
      JoinSplit(s[1..], d);
      var t := Split(s[1..], d);
      if |t| == 1 {
      } else {
        assert Join(t, d) == t[0] + [d] + Join(t[1..], d);
        assert ([[s[0]] + t[0]] + t[1..])[1..] == t[1..];
      }
    }
  }

  lemma {:induction false} SplitJoin(xs: seq<string>, d: char)
    requires |xs| >= 1
    requires forall k :: 0 <= k < |xs| ==> d !in xs[k]
    ensures Split(Join(xs, d), d) == xs
  {
    if |xs| == 1 {
      SplitNoDelimiter(xs[0], d);
    } else {
      SplitJoin(xs[1..], d);
      SplitAppend(xs[0], Join(xs[1..], d), d);
      assert xs == [xs[0]] + xs[1..];
    }
  }

  lemma {:induction false} SplitNoDelimiter(s: string, d: char)
    requires d !in s
    ensures Split(s, d) == [s]
  {
    if s != [] {
      SplitNoDelimiter(s[1..], d);
      assert [s[0]] + s[1..] == s;
    }
  }

  /** Splitting `a + [d] + b` where `a` holds no delimiter. */
  lemma {:induction false} SplitAppend(a: string, b: string, d: char)
    requires d !in a
    ensures Split(a + [d] + b, d) == [a] + Split(b, d)
  {
    if a == [] {
      assert a + [d] + b == [d] + b;
      assert ([d] + b)[1..] == b;
    } else {
      SplitAppend(a[1..], b, d);
      assert (a + [d] + b)[1..] == a[1..] + [d] + b;
      assert [a[0]] + a[1..] == a;
    }
  }

  /** The lines of a text: pieces between '\n', each without a trailing '\r'. */
  function Lines(s: string): (r: seq<string>)
    ensures |r| == |Split(s, '\n')|
  {
    var pieces := Split(s, '\n');
    seq(|pieces|, k requires 0 <= k < |pieces| => TrimCarriageReturn(pieces[k]))
  }

  function TrimCarriageReturn(s: string): string {
    if s != [] && s[|s| - 1] == '\r' then s[..|s| - 1] else s
  }

  /** Value of a run of decimal digits. */
  function DigitsValue(s: string): (n: nat)
    requires forall k :: 0 <= k < |s| ==> IsDigit(s[k])
  {
    if s == [] then 0
    else
      assert IsDigit(s[|s| - 1]);
      var last: nat := s[|s| - 1] as int - '0' as int;
      DigitsValue(s[..|s| - 1]) * 10 + last
  }

  const Int32Min: int := -0x8000_0000
  const Int32Max: int := 0x7FFF_FFFF

  predicate IsNumberSpace(c: char) { ('\U{9}' <= c <= '\U{D}') || c == ' ' }

  predicate AllDigits(s: string) { forall k :: 0 <= k < |s| ==> IsDigit(s[k]) }

  /**
   * `int.Parse(s)` under the default `NumberStyles.Integer`: optional blanks
   * around an optional sign and one or more digits; a value outside the
   * 32-bit range throws `OverflowException`, any other text `FormatException`.
   */
  function ParseInt32(s: string): (r: Result<int>)
    ensures r.Ok? ==> Int32Min <= r.value <= Int32Max
  {
    var t := TrimNumberSpace(s);
    var negative := t != [] && t[0] == '-';
    var digits := if t != [] && (t[0] == '-' || t[0] == '+') then t[1..] else t;
    if digits == [] || !AllDigits(digits) then Throw(Format)
    else
      var v: int := if negative then -(DigitsValue(digits) as int) else DigitsValue(digits);
      if v < Int32Min || v > Int32Max then Throw(Overflow) else Ok(v)
  }

  function TrimNumberSpace(s: string): string {
    if s != [] && IsNumberSpace(s[0]) then TrimNumberSpace(s[1..])
    else if s != [] && IsNumberSpace(s[|s| - 1]) then TrimNumberSpace(s[..|s| - 1])
    else s
  }
}
