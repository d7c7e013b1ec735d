# Shellbent title-bar engine, modelled in Dafny

Shellbent is a Visual Studio extension that rewrites the IDE's title bar and
adds coloured information blocks to it. Users write YAML settings files that
hold a list of *settings triplets*. Each triplet has:

- a list of predicates (`git-branch =~ feature/*`);
- a caption format string (`?git{[$git-branch]} $solution-name`);
- colours and information blocks.

*Resolvers* answer the tags these strings use. There is one resolver each for
git, Subversion, Versionr, Perforce, the open solution and the IDE. Each
resolver watches its own part of the world and raises `Changed` when that
part moves.

This project models, as verified Dafny:

- **The format-string interpreter** (`Parsing.ParseFormatString` and its
  helpers). It has escapes, `?tag{…}` conditionals, `$tag`, `${a b}` and
  `$fn(args)`. It also models the predicate parser `ParsePredicate`.
  - A pure specification function `Expand` gives the meaning of a template.
  - The cursor-based methods of the source are proved equal to `Expand`.
  - Lemmas state the behaviour of each construct, including the code's
    quirks at the end of the template and after a skipped group.
- **The resolver abstraction**: tag applicability, the first-applicable
  lookup, glob matching, the `path(a, b)` slicer, the argument-list parser
  of `ApplyFunction`, and the upward directory scan.
- **The concrete resolvers**, each as a class whose fields are the C#
  fields. Their event handlers become methods. The output of external
  processes and the directory tree are parameters.
- **The settings records**: title-bar formats and their string converter,
  and the lazily parsed, cached predicate list of a triplet.
- **The package's aggregation**:
  - which triplets apply;
  - the fold that takes every title-bar field from the first applicable
    triplet that sets it;
  - the order in which resolvers and settings sources are consulted;
  - the reconciliation of known title-bar models with the open windows.

Modelling conventions:

- Exceptions are values: a function returns `Result.Throw(e)` and a method
  returns an `Option<Exception>`.
- A C# `null` is `Option.None`.
- Paths are Windows paths, in which both `\` and `/` separate.
- 32-bit integer parsing and overflow are written out.

## Model

| member | source | states |
|---|---|---|
| Parsing.ParsePredicate | Shellbent/Utilities/Parsing.cs:28-37 | Throws `InvalidOperationException` exactly when the text has no `[a-z0-9-]` character. |
| Parsing.PredicateMatch | Shellbent/Utilities/Parsing.cs:30 | The unanchored regex fails exactly when no tag character occurs. |
| ParsingProperties.PredicateWithPattern | Shellbent/Utilities/Parsing.cs:30-32 | `tag =~ pattern`, with any leading junk and any spacing around `=~`, parses to the tag and the rest of the line. |
| ParsingProperties.PredicateWithoutPattern | Shellbent/Utilities/Parsing.cs:30-34 | A tag not followed by `=~` parses to the tag and an empty pattern. |
| ParsingProperties.PredicateTrailingSpaces | Shellbent/Utilities/Parsing.cs:30-32 | `tag =~` followed only by blanks: the greedy `\s*` gives one blank back, so the pattern is a single space. |
| ParsingProperties.PredicateMatchSkips | Shellbent/Utilities/Parsing.cs:30 | Characters that cannot start a tag are skipped; the match is that of the rest. |
| ParsingProperties.PredicateMatchAt | Shellbent/Utilities/Parsing.cs:30-34 | At a tag, the match is the whole run of tag characters plus the optional pattern group directly after it. |
| Parsing.ParseFormatString | Shellbent/Utilities/Parsing.cs:39-49 | A null template gives `""`; otherwise the result is the template's expansion `Expand`, with no enclosing `$` value. |
| Parsing.ParseImpl | Shellbent/Utilities/Parsing.cs:51-85 | The cursor loop returns exactly `Expand` of the whole template, exceptions included. |
| Parsing.Expand | Shellbent/Utilities/Parsing.cs:51-85 | The specification of the loop on the text still to read: `\c` gives `c` (a lone final `\` ends it); a `?` runs `Question` and either continues after what it consumed or falls through at the cursor it left; anything else goes to `DollarOrLiteral`. The Step lemmas state each case. |
| Parsing.DollarOrLiteral | Shellbent/Utilities/Parsing.cs:73-81 | The last two branches of the loop: a `$` construct's text before the rest's expansion, or one character copied. |
| Parsing.QuestionStep | Shellbent/Utilities/Parsing.cs:68-71 | The `?` branch of the loop keeps the loop invariant: text so far plus the rest's expansion is the whole expansion; a declined `?` at the end reads past the template. |
| Parsing.DollarOrLiteralStep | Shellbent/Utilities/Parsing.cs:73-81 | The `$` and copy branches keep the loop invariant and advance the cursor. |
| Parsing.ParseQuestion | Shellbent/Utilities/Parsing.cs:88-149 | The method equals the specification `Question` on the text from the `?` on. |
| Parsing.Question | Shellbent/Utilities/Parsing.cs:88-149 | A handled `?` always moves the cursor; a declined one never moves it past the end. |
| Parsing.SkipGroupFrom | Shellbent/Utilities/Parsing.cs:112-120 | The skip loop equals `SkipGroup`: the cursor ends just after the first `}`, or the loop indexes past the end. |
| Parsing.SkipGroup | Shellbent/Utilities/Parsing.cs:112-120 | The skip loop either throws or ends past the `{`, at most one past the text. |
| Parsing.SkipFalseGroup | Shellbent/Utilities/Parsing.cs:108-124 | For a false condition the braced group is skipped unexpanded, as `QuestionGroup` says. |
| Parsing.ParseTrueGroup | Shellbent/Utilities/Parsing.cs:125-140 | For a true condition the group body is expanded with the tag's value as `$`, as `QuestionGroup` says. |
| Parsing.QuestionGroup | Shellbent/Utilities/Parsing.cs:101-146 | After `?tag`, a matched group always consumes past the `?`; a declined one never reaches past the text. |
| Parsing.ParseDollar | Shellbent/Utilities/Parsing.cs:158-234 | The method equals the specification `Dollar`. |
| Parsing.Dollar | Shellbent/Utilities/Parsing.cs:158-234 | Every `$` construct matches and consumes at least the `$`. |
| Parsing.ParseDollarWords | Shellbent/Utilities/Parsing.cs:172-196 | The `${…}` branch equals `DollarWords`. |
| Parsing.DollarWords | Shellbent/Utilities/Parsing.cs:172-196 | `${…}` always matches and consumes at least the `$`. |
| Parsing.ParseDollarIdentifier | Shellbent/Utilities/Parsing.cs:198-232 | The identifier branch equals `DollarIdentifier`. |
| Parsing.DollarIdentifier | Shellbent/Utilities/Parsing.cs:198-232 | The identifier branch always matches and consumes at least the `$`. |
| Parsing.ParseDollarToken | Shellbent/Utilities/Parsing.cs:200-227 | Once the identifier is read, the method equals `DollarToken`: with an optional `(…)` argument list, the cursor moves past the identifier at least. |
| Parsing.DollarToken | Shellbent/Utilities/Parsing.cs:200-227 | A token consumes at least the `$` and its identifier. |
| Parsing.ResolveWords | Shellbent/Utilities/Parsing.cs:187-194 | One resolved word per word. |
| Parsing.StepEscape | Shellbent/Utilities/Parsing.cs:59-66 | `\c` inside a template contributes `c` and moves two characters on. |
| Parsing.StepQuestionMatched | Shellbent/Utilities/Parsing.cs:68-71 | A matched `?` construct contributes its text and the expansion continues after it. |
| Parsing.StepQuestionDeclined | Shellbent/Utilities/Parsing.cs:68-81 | A declined `?` falls through to the `$` and copy tests at the new cursor; at the end of the template it reads past it. |
| Parsing.StepQuestionThrow | Shellbent/Utilities/Parsing.cs:68-71 | An exception in the `?` branch ends the whole expansion with it. |
| Parsing.StepOther | Shellbent/Utilities/Parsing.cs:73-81 | A character other than `\` and `?` goes straight to the `$` and copy tests. |
| Parsing.StepDollar | Shellbent/Utilities/Parsing.cs:73-76 | A `$` construct contributes its text and the expansion continues after it. |
| Parsing.StepDollarThrow | Shellbent/Utilities/Parsing.cs:73-76 | An exception in the `$` branch ends the whole expansion with it. |
| Parsing.StepLiteral | Shellbent/Utilities/Parsing.cs:77-81 | Any other character is copied. |
| ParsingProperties.PlainPrefixCopied | Shellbent/Utilities/Parsing.cs:77-81 | A run without `\`, `?` or `$` is copied in order in front of the rest's expansion. |
| ParsingProperties.PlainCopied | Shellbent/Utilities/Parsing.cs:56-84 | A template without `\`, `?` or `$` expands to itself. |
| ParsingProperties.Escapes | Shellbent/Utilities/Parsing.cs:59-66 | `\c` emits `c`; a lone trailing `\` emits nothing. |
| ParsingProperties.QuestionTagOf | Shellbent/Utilities/Parsing.cs:90-93 | The tag after `?` is the whole run of `[a-z-]` characters. |
| ParsingProperties.SkipGroupStops | Shellbent/Utilities/Parsing.cs:112-120 | The skip loop stops just after the first `}`. |
| ParsingProperties.SkipGroupUnclosed | Shellbent/Utilities/Parsing.cs:112-120 | With no `}` left, the skip loop indexes past the end. |
| ParsingProperties.FalseQuestion | Shellbent/Utilities/Parsing.cs:108-124 | A false `?tag{…}` is declined with the cursor where the skip loop left it. |
| ParsingProperties.FalseGroupSkipped | Shellbent/Utilities/Parsing.cs:108-124 | A false `?tag{body}` emits nothing; the next character only reaches the `$` and copy branches, and if there is none the code reads past the end. |
| ParsingProperties.FalseGroupUnclosed | Shellbent/Utilities/Parsing.cs:112-120 | A false, unclosed `?tag{` throws `IndexOutOfRangeException`. |
| ParsingProperties.FalseGroupThenLiteral | Shellbent/Utilities/Parsing.cs:68-81 | After a skipped group, a following `\` or `?` is copied literally. |
| ParsingProperties.TrueQuestion | Shellbent/Utilities/Parsing.cs:125-140 | A true `?tag{…}` matches and consumes through the `}`. |
| ParsingProperties.TrueGroupExpanded | Shellbent/Utilities/Parsing.cs:125-140 | A true `?tag{body}` emits the body expanded with the first applicable resolver's value as `$`, then the rest with the outer value. |
| ParsingProperties.TrueGroupUnclosed | Shellbent/Utilities/Parsing.cs:131-139 | A true, unclosed group expands the whole body; the cursor passing the end is harmless. |
| ParsingProperties.TagWithoutGroup | Shellbent/Utilities/Parsing.cs:142-146 | `?tag` not followed by `{` emits nothing, and the next character goes to the `$` and copy branches. |
| ParsingProperties.TagAtEnd | Shellbent/Utilities/Parsing.cs:101-105 | A `?tag` that ends the template is harmless when true and reads past the end when false. |
| ParsingProperties.BareDollar | Shellbent/Utilities/Parsing.cs:165-170 | A `$` before white space or a digit emits the enclosing value (or `""`) and swallows that character. |
| ParsingProperties.BareDollarAtEnd | Shellbent/Utilities/Parsing.cs:165-170 | A trailing `$` emits the enclosing value (or `""`). |
| ParsingProperties.ResolveWordsEach | Shellbent/Utilities/Parsing.cs:187-194 | Each word of `${…}` is looked up alone and stands for itself when unresolved; any lookup that throws makes the list throw. |
| ParsingProperties.WordList | Shellbent/Utilities/Parsing.cs:172-196 | `${w1 w2}` emits the resolved words joined by single spaces, and the `}` is consumed. |
| ParsingProperties.CallToken | Shellbent/Utilities/Parsing.cs:198-227 | `$ident(args)` looks up the whole token `ident(args)` and emits its value, or the token itself when unresolved. |
| ParsingProperties.PlainToken | Shellbent/Utilities/Parsing.cs:198-227 | `$ident` not followed by `(` looks up `ident` alone. |
| ParsingProperties.UnresolvedToken | Shellbent/Utilities/Parsing.cs:224-227 | A token no resolver applies to is emitted as written. |
| ParsingProperties.DollarSkipsAhead | Shellbent/Utilities/Parsing.cs:198-202 | The identifier regex is not anchored: `$!ab` expands to `abb`, because the cursor moves only by the length of the run found further on. |
| Resolvers.LeadingIdentifier | Shellbent/Resolvers/Resolver.cs:87 | The first `[a-z][a-z0-9-]*` run exists exactly when the tag holds a lowercase letter, and starts with one. |
| Resolvers.LeadingIdentifierOf | Shellbent/Resolvers/Resolver.cs:87 | An identifier followed by a non-identifier character is the run the regex finds. |
| Resolvers.FirstApplicable | Shellbent/Utilities/Parsing.cs:97-99 | `FirstOrDefault(x => x.Applicable(tag))`: the applicable resolver before which none applies, or none at all. |
| Resolvers.FirstApplicableAfter | Shellbent/Utilities/Parsing.cs:127-129 | Resolvers that do not apply are passed over by the lookup. |
| Resolvers.Applicable | Shellbent/Resolvers/Resolver.cs:85-88 | A resolver applies to a tag exactly when the tag's leading `[a-z][a-z0-9-]*` match is one of its declared tags. |
| Parsing.ResolveFirst | Shellbent/Utilities/Parsing.cs:224-227 | `Resolve` of the first applicable resolver, null when none applies; an exception escapes. Stated through the engine by IdeModeThroughEngine and Package.LastConstructedWins. |
| Parsing.ResolveBooleanFirst | Shellbent/Utilities/Parsing.cs:97-99 | `ResolveBoolean` of the first applicable resolver, false when none applies. |
| Resolvers.GlobMatch | Shellbent/Resolvers/Resolver.cs:98-103 | A null or empty pattern accepts anything; otherwise a null candidate throws `ArgumentNullException` and a string candidate gets an answer. |
| Resolvers.Matches | Shellbent/Resolvers/Resolver.cs:100-102 | What the escaped, anchored, case-insensitive regex accepts: `*` any run, `?` one character, anything else itself ignoring case. The lemmas StarMatchesAll to QuestionMatchesOne state it. |
| Resolvers.GlobAccepts | Shellbent/Resolvers/Resolver.cs:100-102 | The anchored regex also accepts the candidate with one extra final newline, since `$` matches before it. |
| Resolvers.StarMatchesAll | Shellbent/Resolvers/Resolver.cs:100-102 | The glob `*` matches every string. |
| Resolvers.PrefixStarMatches | Shellbent/Resolvers/Resolver.cs:100-102 | `prefix*` matches exactly the strings starting with the prefix, ignoring case. |
| Resolvers.LiteralMatches | Shellbent/Resolvers/Resolver.cs:100-102 | A glob without wildcards matches exactly the equal strings, ignoring case; regex characters such as `.` are literal. |
| Resolvers.QuestionMatchesOne | Shellbent/Resolvers/Resolver.cs:100-102 | `?` consumes exactly one character. |
| SplitFunction.Parse | Shellbent/Resolvers/Resolver.cs:23-40 | A tag without `name(a, b)` gives `""`. |
| SplitFunction.FirstCall | Shellbent/Resolvers/Resolver.cs:25-26 | The leftmost `name(digits, digits)` in the tag, as the unanchored regex finds it. |
| SplitFunction.SliceSegments | Shellbent/Resolvers/Resolver.cs:31-35 | `Split.Reverse.Skip(a).Take(b).Reverse`; SliceSegmentsIsSlice states it is a contiguous slice. |
| SplitFunction.Joined | Shellbent/Resolvers/Resolver.cs:31-36 | `Aggregate` of no segments throws `InvalidOperationException`, and only then. |
| SplitFunction.SliceSegmentsIsSlice | Shellbent/Resolvers/Resolver.cs:31-36 | `Reverse.Skip(a).Take(b).Reverse` is the contiguous slice that keeps the last `b` segments before the final `a`. |
| SplitFunction.ParseSelectsSlice | Shellbent/Resolvers/Resolver.cs:23-40 | Split again on the delimiter, the result of `path(a, b)` is exactly that slice of the data's segments. |
| SplitFunction.ApplyFunction | Shellbent/Resolvers/Resolver.cs:43-70 | When no position of the name-stripped input starts an argument group the default is returned; otherwise the result is `func` applied to a non-empty list of well-formed arguments. |
| SplitFunction.FirstArguments | Shellbent/Resolvers/Resolver.cs:50-60 | A match yields at least one argument, each a non-empty run of `[a-z0-9-/*.]`. |
| SplitFunction.FirstArgumentsNone | Shellbent/Resolvers/Resolver.cs:50-51 | The unanchored regex fails exactly when no position of the input starts an argument group. |
| SplitFunction.FirstArgumentsAt | Shellbent/Resolvers/Resolver.cs:50-60 | The arguments are those of the leftmost position that starts a group. |
| SplitFunction.ArgumentsAtList | Shellbent/Resolvers/Resolver.cs:50-60 | `(a1,a2,…)` is recognised with its arguments, in order. |
| SplitFunction.ApplyFunctionPassesArguments | Shellbent/Resolvers/Resolver.cs:43-62 | `name(a1,a2,…)` hands `func` exactly `[a1, a2, …]`. |
| ResolverUtils.GetAllParentDirectories | Shellbent/Resolvers/Resolver.cs:111-125 | The returned stack is the pushed directories reversed, so the last push comes first. |
| ResolverUtils.Pushed | Shellbent/Resolvers/Resolver.cs:118-125 | The directories the recursion pushes, innermost first, stopping before the root; PushedPrefixes states them. |
| ResolverUtils.Parent | Shellbent/Resolvers/Resolver.cs:124 | `DirectoryInfo.Parent`: null exactly at the root, otherwise the directory one segment shorter with the same leading segments. |
| ResolverUtils.ContainingDirectory | Shellbent/Resolvers/GitResolver.cs:53 | `new FileInfo(path).Directory`: the parent of the file's path. |
| ResolverUtils.PushedPrefixes | Shellbent/Resolvers/Resolver.cs:118-125 | The recursion pushes the directory and each ancestor below the root, innermost first. |
| ResolverUtils.AllParentsOutermostFirst | Shellbent/Resolvers/Resolver.cs:111-125 | The enumeration runs from the directory just below the root down to the start directory, each once; the root is excluded. |
| ResolverUtils.FindMarker | Shellbent/Resolvers/GitResolver.cs:55-58 | The marker found sits under one of the scanned directories, and none is found exactly when no scanned directory has one. |
| ResolverUtils.FindMarkerFirst | Shellbent/Resolvers/GitResolver.cs:55-58 | The marker under the first scanned directory that has one is returned. |
| ResolverUtils.MarkerOutermost | Shellbent/Resolvers/GitResolver.cs:53-58 | Over the ancestor enumeration, the marker under the outermost ancestor that has one wins. |
| ResolverUtils.MarkerAbsent | Shellbent/Resolvers/GitResolver.cs:53-58 | No marker is found exactly when no directory between the root and the solution's directory has one. |
| P4Resolvers.PathAddBackslash | Shellbent/Resolvers/P4Resolver.cs:104-133 | Null throws `ArgumentNullException`; otherwise the trimmed path, ending in a separator: `/` if the path uses `/`, else `\`. |
| P4Resolvers.PathAddBackslashIdempotent | Shellbent/Resolvers/P4Resolver.cs:104-133 | Adding a backslash twice is the same as once. |
| P4Resolvers.ViewOfTrimmed | Shellbent/Resolvers/P4Resolver.cs:83-88 | A leading `+` or `-` is kept at the front of the view. |
| P4Resolvers.ExtractFirstViewOf | Shellbent/Resolvers/P4Resolver.cs:78-101 | An unquoted view line yields its sign and its first non-blank run. |
| P4Resolvers.ExtractFirstView | Shellbent/Resolvers/P4Resolver.cs:78-101 | The view read from the trimmed line, as ViewOfTrimmed states. |
| P4Resolvers.FromViewHeader | Shellbent/Resolvers/P4Resolver.cs:59 | `SkipWhile`: the suffix starting at the first `View:` line, or nothing. |
| P4Resolvers.FromViewHeaderOf | Shellbent/Resolvers/P4Resolver.cs:59 | Lines before the first `View:` line are dropped. |
| P4Resolvers.TabbedPrefix | Shellbent/Resolvers/P4Resolver.cs:61 | `TakeWhile`: the longest prefix of tab-indented lines. |
| P4Resolvers.TabbedPrefixOf | Shellbent/Resolvers/P4Resolver.cs:61 | The first untabbed line ends the views. |
| P4Resolvers.ExtractViews | Shellbent/Resolvers/P4Resolver.cs:62-63 | One view per line, each `ExtractFirstView` of its line. |
| P4Resolvers.ClientViewsOf | Shellbent/Resolvers/P4Resolver.cs:56-63 | The views are read from exactly the tab-indented lines right after the first `View:` line. |
| P4Resolvers.ClientViews | Shellbent/Resolvers/P4Resolver.cs:56-63 | The pipeline split, skip to `View:`, skip it, take the tabbed lines, extract each view; ClientViewsOf states its result. |
| P4Resolvers.Wrap32 | Shellbent/Resolvers/P4Resolver.cs:164 | C# `int` addition wraps into the 32-bit range and is the identity inside it. |
| P4Resolvers.ViewSegments | Shellbent/Resolvers/P4Resolver.cs:162 | The view with `+`, `-` and `//` trimmed in that order, split on `/`. |
| P4Resolvers.SliceOf | Shellbent/Resolvers/P4Resolver.cs:164-165 | `Skip(from).Take(count)` joined by `/`; SliceOfInBounds states it within bounds. |
| P4Resolvers.FirstSlice | Shellbent/Resolvers/P4Resolver.cs:162-166 | The slice of the first view with at least `from + count` segments, null when there is none; FirstSliceNone and FirstSliceAt state it. |
| P4Resolvers.ViewOfArguments | Shellbent/Resolvers/P4Resolver.cs:148-172 | A failed parse or a null view list gives null (the catch-all); otherwise `FirstSlice` with the wrapped bound. |
| P4Resolvers.JoinSegments | Shellbent/Resolvers/P4Resolver.cs:166 | `string.Join("/", …)` of no pieces is `""`, else the pieces joined by `/`. |
| P4Resolvers.SliceOfInBounds | Shellbent/Resolvers/P4Resolver.cs:165-166 | Within bounds, `Skip(from).Take(count)` is the segments `[from, from + count)`. |
| P4Resolvers.FirstSliceNone | Shellbent/Resolvers/P4Resolver.cs:162-167 | There is no slice exactly when no view has enough segments. |
| P4Resolvers.FirstSliceAt | Shellbent/Resolvers/P4Resolver.cs:162-167 | The slice comes from the first view with enough segments. |
| P4Resolvers.ViewHandler | Shellbent/Resolvers/P4Resolver.cs:144-177 | A null view list gives null (its exception is caught). |
| P4Resolvers.ViewSlice | Shellbent/Resolvers/P4Resolver.cs:144-177 | `p4-view(from,count)` gives the segments `[from, from + count)` of the first view that has them, joined by `/`. |
| P4Resolvers.ViewDefaultCount | Shellbent/Resolvers/P4Resolver.cs:146-155 | With one argument the count defaults to 1: the single segment `from`. |
| P4Resolvers.ViewTagApplicable | Shellbent/Resolvers/P4Resolver.cs:18 | `p4-view(…)` tags are applicable to the resolver through the declared tag `p4-view`. |
| P4Resolvers.P4Resolver.constructor | Shellbent/Resolvers/P4Resolver.cs:17-22 | Every field is null and the resolver is unavailable. |
| P4Resolvers.P4Resolver.Available | Shellbent/Resolvers/P4Resolver.cs:136 | Available exactly when a Perforce path is bound. |
| P4Resolvers.P4Resolver.ResolveBoolean | Shellbent/Resolvers/P4Resolver.cs:194-197 | True exactly for the tag `p4`. |
| P4Resolvers.P4Resolver.Resolve | Shellbent/Resolvers/P4Resolver.cs:140-192 | `p4-view…` never gives `""` (empty becomes null) and gives null without views; `p4-client` gives the client; anything else null. |
| P4Resolvers.P4Resolver.SatisfiesDependency | Shellbent/Resolvers/P4Resolver.cs:199-212 | False while unavailable; `p4` true; `p4-client` globs the client; `p4-view` asks whether any view matches, and throws with no view list; other tags false. |
| P4Resolvers.P4Resolver.Bind | Shellbent/Resolvers/P4Resolver.cs:49-63 | Records the client root with a trailing separator, looks its client up, and reads the views when the client is known and the spec was produced; the resolver becomes available. |
| P4Resolvers.P4Resolver.OnAfterSolutionClosed | Shellbent/Resolvers/P4Resolver.cs:71-76 | Path and client become `""`, the views become empty, and the resolver is unavailable. |
| P4Resolvers.ResolveViewTag | Shellbent/Resolvers/P4Resolver.cs:142-182 | A `p4-view(from,count)` tag reaches the slicer with exactly its two arguments; an empty or null slice gives null. |
| GitResolvers.CommitInfo | Shellbent/Resolvers/GitResolver.cs:92-98 | A null output gives nothing. |
| GitResolvers.CommitInfoRefused | Shellbent/Resolvers/GitResolver.cs:92-104 | The output is refused (index out of range, caught) exactly when it holds no `\|`. |
| GitResolvers.CommitInfoOf | Shellbent/Resolvers/GitResolver.cs:92-98 | `hash\|time` reads back as the trimmed hash and time. |
| GitResolvers.GitResolver.constructor | Shellbent/Resolvers/GitResolver.cs:13-20 | Keeps the `git.exe` location; nothing else is known and the resolver is unavailable. |
| GitResolvers.GitResolver.Available | Shellbent/Resolvers/GitResolver.cs:22 | Available exactly when `git.exe` was found and the solution is in a repository. |
| GitResolvers.GitResolver.SatisfiesPredicateImpl | Shellbent/Resolvers/GitResolver.cs:24-34 | `git-branch` and `git-sha` glob their field, `git` is availability, other tags false. |
| GitResolvers.GitResolver.Resolve | Shellbent/Resolvers/GitResolver.cs:36-46 | The three text tags give their field; anything else `""`. |
| GitResolvers.GitResolver.ReadInfo | Shellbent/Resolvers/GitResolver.cs:86-105 | The branch is the trimmed `symbolic-ref` output; on any failure hash and time become `""` while an already assigned branch stays. |
| GitResolvers.GitResolver.OnBeforeSolutionOpened | Shellbent/Resolvers/GitResolver.cs:48-68 | Nothing for a null or empty path; else `gitPath` is the `.git` under the outermost ancestor that has one. When none is found nothing else changes; when one is found it is watched and branch, hash and time become what `ReadInfo` reads. |
| GitResolvers.GitResolver.OnAfterSolutionClosed | Shellbent/Resolvers/GitResolver.cs:70-78 | Forgets the repository and stops watching; the last values stay. |
| GitResolvers.GitResolver.OnGitFolderChanged | Shellbent/Resolvers/GitResolver.cs:80-84 | Reads again and raises `Changed` once. |
| SvnResolvers.FirstUrl | Shellbent/Resolvers/SvnResolver.cs:81-85 | No URL exactly when no line starts with `URL: `. |
| SvnResolvers.FirstUrlAt | Shellbent/Resolvers/SvnResolver.cs:81-85 | The URL comes from the first `URL: ` line. |
| SvnResolvers.SvnResolver.constructor | Shellbent/Resolvers/SvnResolver.cs:14-19 | Nothing known, not watching, unavailable. |
| SvnResolvers.SvnResolver.Available | Shellbent/Resolvers/SvnResolver.cs:21 | Available exactly when the solution is in a working copy. |
| SvnResolvers.InfoUrl | Shellbent/Resolvers/SvnResolver.cs:81-85 | The URL of the first `URL: ` line of the output, null when none; FirstUrlAt states it. |
| SvnResolvers.SvnResolver.SatisfiesPredicateImpl | Shellbent/Resolvers/SvnResolver.cs:23-31 | `svn` true, `svn-url` globs the URL, other tags false. |
| SvnResolvers.SvnResolver.Resolve | Shellbent/Resolvers/SvnResolver.cs:33-40 | `svn-url` gives the URL; anything else `""`. |
| SvnResolvers.SvnResolver.ReadInfo | Shellbent/Resolvers/SvnResolver.cs:77-92 | A null output throws `NullReferenceException`; otherwise the URL becomes the one named, and `Changed` is raised exactly when it differs. |
| SvnResolvers.SvnResolver.OnBeforeSolutionOpened | Shellbent/Resolvers/SvnResolver.cs:42-59 | A null or empty path throws and changes nothing; else `svnPath` is the `.svn` under the outermost ancestor that has one. When none is found nothing else changes; when one is found it is watched and the URL read: a null output throws and keeps URL and event count, otherwise the URL is the one named and `Changed` is raised once if it differs. |
| SvnResolvers.SvnResolver.OnAfterSolutionClosed | Shellbent/Resolvers/SvnResolver.cs:61-69 | Forgets the working copy and stops watching; the URL stays. |
| SvnResolvers.SvnResolver.SvnFolderChanged | Shellbent/Resolvers/SvnResolver.cs:71-75 | Reads again; `Changed` is raised once more unconditionally (so twice when the URL moved), unless reading threw. |
| VsrResolvers.BranchAt | Shellbent/Resolvers/VsrResolver.cs:94 | A branch match at a position is a non-empty name between `on branch "` and `"`. |
| VsrResolvers.VersionAt | Shellbent/Resolvers/VsrResolver.cs:104 | A version match at a position is a non-empty run after `Version `. |
| VsrResolvers.FirstBranch | Shellbent/Resolvers/VsrResolver.cs:94 | The regex fails exactly when no position matches. |
| VsrResolvers.FirstVersion | Shellbent/Resolvers/VsrResolver.cs:104 | The regex fails exactly when no position matches. |
| VsrResolvers.FirstBranchAt | Shellbent/Resolvers/VsrResolver.cs:94 | The match is the one at the leftmost matching position. |
| VsrResolvers.BranchAtOf | Shellbent/Resolvers/VsrResolver.cs:94 | `on branch "name"` matches with group `name`. |
| VsrResolvers.VersionAtOf | Shellbent/Resolvers/VsrResolver.cs:104 | `Version run` followed by a non-version character matches with group `run`. |
| VsrResolvers.HeaderLine | Shellbent/Resolvers/VsrResolver.cs:92-110 | The header `Version <v> on branch "<b>"` of `vsr info` yields version `v` and branch `b`. |
| VsrResolvers.NoBranchBefore | Shellbent/Resolvers/VsrResolver.cs:94 | In that header, no position before the branch text starts a branch match. |
| VsrResolvers.VsrResolver.constructor | Shellbent/Resolvers/VsrResolver.cs:15-20 | Nothing known, not watching, unavailable. |
| VsrResolvers.VsrResolver.Available | Shellbent/Resolvers/VsrResolver.cs:22 | Available exactly when the solution is in a working copy. |
| VsrResolvers.HeadLine | Shellbent/Resolvers/VsrResolver.cs:89-94 | The first line of the output, the only one read; HeaderLine states it. |
| VsrResolvers.VsrResolver.SatisfiesPredicateImpl | Shellbent/Resolvers/VsrResolver.cs:66-75 | `vsr` true, `vsr-branch` and `vsr-sha` glob their field, other tags false. |
| VsrResolvers.VsrResolver.Resolve | Shellbent/Resolvers/VsrResolver.cs:24-32 | `vsr-branch` and `vsr-sha` give their field; anything else `""`. |
| VsrResolvers.VsrResolver.ReadInfo | Shellbent/Resolvers/VsrResolver.cs:82-116 | Nothing for a null or empty output; a new branch replaces the held one, a version always does, and `Changed` is raised once when either happened. |
| VsrResolvers.VsrResolver.OnBeforeSolutionOpened | Shellbent/Resolvers/VsrResolver.cs:34-54 | A null or empty path throws and changes nothing; else `vsrPath` is the `.versionr` under the outermost ancestor that has one. When none is found nothing else changes; when one is found it is watched and read: an empty output keeps branch, version and event count, otherwise branch and version are those of the first line when found, and `Changed` is raised once when either changed. |
| VsrResolvers.VsrResolver.OnAfterSolutionClosed | Shellbent/Resolvers/VsrResolver.cs:56-64 | Forgets the working copy and stops watching; the values stay. |
| SolutionResolvers.SolutionResolver.constructor | Shellbent/Resolvers/SolutionResolver.cs:18-23 | No solution known; unavailable. |
| SolutionResolvers.SolutionResolver.Available | Shellbent/Resolvers/SolutionResolver.cs:25-26 | Available exactly when both the name and the file path are neither null nor empty. |
| SolutionResolvers.SolutionResolver.Resolvable | Shellbent/Resolvers/SolutionResolver.cs:30-33 | Resolvable exactly when the IDE has a solution object. |
| SolutionResolvers.FolderName | Shellbent/Resolvers/SolutionResolver.cs:44 | `Path.GetFileName` of the directory, a null directory concatenating as `""`. |
| SolutionResolvers.SolutionResolver.Resolve | Shellbent/Resolvers/SolutionResolver.cs:35-47 | `path…` slices the solution's directory (its construction errors propagate); the name tags give the file name without extension; `solution-path` gives the folder name plus `\`, or throws on a missing solution or an empty file name; other tags throw `InvalidOperationException`. |
| SolutionResolvers.SolutionResolver.SatisfiesPredicateImpl | Shellbent/Resolvers/SolutionResolver.cs:49-59 | `solution` true, name tags glob the name, `solution-path` globs the file path, other tags false. |
| SolutionResolvers.SolutionResolver.OnAfterOpenSolution | Shellbent/Resolvers/SolutionResolver.cs:61-70 | Records both properties; available exactly when both are non-empty strings. |
| SolutionResolvers.SolutionResolver.OnAfterSolutionClosed | Shellbent/Resolvers/SolutionResolver.cs:72-76 | Forgets the solution; unavailable. |
| SolutionResolvers.SolutionNameOf | Shellbent/Resolvers/SolutionResolver.cs:41-42 | `dir\stem.ext` has the solution name `stem`, whatever the directory. |
| SolutionResolvers.SolutionPathOf | Shellbent/Resolvers/SolutionResolver.cs:43-44 | For `dir\folder\file`, `solution-path` is `folder\`. |
| Paths.FileName | Shellbent/Resolvers/SolutionResolver.cs:44 | `Path.GetFileName`: the suffix after the last separator or `:`. |
| Paths.WithoutExtension | Shellbent/Resolvers/SolutionResolver.cs:42 | The name cut at its last `.`, or the whole name without one. |
| Paths.DirectoryName | Shellbent/Resolvers/SolutionResolver.cs:44 | `Path.GetDirectoryName`: null for null or a bare root, `""` throws, else a proper prefix no shorter than the root. |
| Paths.DirectoryAndFileName | Shellbent/Resolvers/SolutionResolver.cs:44 | Directory part and file name split the path around at most one separator. |
| Paths.FileDirectoryName | Shellbent/Resolvers/SolutionResolver.cs:39 | `new FileInfo(p).Directory.FullName`: null throws `ArgumentNullException`, `""` `ArgumentException`, a root `NullReferenceException`; otherwise the directory name. |
| Paths.Segments | Shellbent/Resolvers/GitResolver.cs:53 | A path splits into at least one segment, on either separator. |
| IdeResolvers.ModeTitle | Shellbent/Resolvers/IDEResolver.cs:45-53 | Empty exactly in design mode; `(Running)` and `(Debugging)` otherwise. |
| IdeResolvers.IdeResolver.constructor | Shellbent/Resolvers/IDEResolver.cs:9-14 | Starts from the model's mode with no `Changed` raised. |
| IdeResolvers.IdeResolver.Available | Shellbent/Resolvers/IDEResolver.cs:16 | Always available. |
| IdeResolvers.IdeResolver.Resolvable | Shellbent/Resolvers/IDEResolver.cs:18-24 | `ide-mode` is resolvable exactly when its title is non-empty; other tags always. |
| IdeResolvers.IdeResolver.Resolve | Shellbent/Resolvers/IDEResolver.cs:26-34 | `ide-name` is the product name, `ide-mode` the queried mode's title, anything else `""`. |
| IdeResolvers.IdeResolver.OnModeChanged | Shellbent/Resolvers/IDEResolver.cs:36-43 | Stores the mode and raises `Changed` exactly when it differs. |
| IdeResolvers.TitleBarNoneIdeResolver.constructor | TitleBarNone/Resolvers/IDEResolver.cs:21-36 | Starts from the debugger's mode; no callback yet. |
| IdeResolvers.TitleBarNoneIdeResolver.ResolveBoolean | TitleBarNone/Resolvers/IDEResolver.cs:43-49 | `ide-mode` is true exactly when its value is not `""`; other tags true. |
| IdeResolvers.TitleBarNoneIdeResolver.Resolve | TitleBarNone/Resolvers/IDEResolver.cs:51-59 | Product name, mode title, or null. |
| IdeResolvers.TitleBarNoneIdeResolver.OnExecutionChanged | TitleBarNone/Resolvers/IDEResolver.cs:61-67 | Reports start-up or shut-down once, with the stored mode, which stays. |
| IdeResolvers.TitleBarNoneIdeResolver.OnModeChanged | TitleBarNone/Resolvers/IDEResolver.cs:69-73 | Stores and reports the mode, even when it is unchanged. |
| IdeResolvers.TitleBarNoneView | TitleBarNone/Resolvers/IDEResolver.cs:21-22 | The resolver declares the tags `ide-name` and `ide-mode`. |
| IdeResolvers.IdeModeThroughEngine | TitleBarNone/Resolvers/IDEResolver.cs:43-59 | Through the first-applicable lookup, `ide-mode` resolves to the mode's title and is true exactly outside design mode. |
| Settings.BrushOf | Shellbent/Settings/Settings.cs:105 | A brush exactly when there is a colour, painting that colour. |
| Settings.TitleBarFormat.constructor | Shellbent/Settings/Settings.cs:24-27 | The pattern, no brushes. |
| Settings.TitleBarFormat.WithColor | Shellbent/Settings/Settings.cs:29-35 | A foreground brush of the colour exactly when there is one; never a background brush. |
| Settings.ConvertTo | Shellbent/Settings/Settings.cs:44-52 | To a string: the pattern, or `NullReferenceException` for a null format; other destinations refused. |
| Settings.CanConvertFrom | Shellbent/Settings/Settings.cs:54-57 | From a string or an instance descriptor only. |
| Settings.ConvertFrom | Shellbent/Settings/Settings.cs:59-67 | A string becomes a fresh format with that pattern and no brushes; null or a value of another type is refused with `NotSupportedException`. |
| Settings.ConvertRoundTrip | Shellbent/Settings/Settings.cs:44-67 | Converting a string to a format and back gives the string. |
| Settings.Kept | Shellbent/Settings/Settings.cs:93-95 | The kept entries are no more than the entries, all non-empty. |
| Settings.KeptHas | Shellbent/Settings/Settings.cs:93-95 | Every entry non-blank after trimming is kept, trimmed. |
| Settings.ParseAll | Shellbent/Settings/Settings.cs:96-97 | Succeeds exactly when every entry parses, giving each entry's pair in order. |
| Settings.ParsePredicates | Shellbent/Settings/Settings.cs:92-97 | `ParseAll` with `ParsePredicate` over the kept entries; PredicatesError and PredicatesThrowOn state it. |
| Settings.ParseAllFirstError | Shellbent/Settings/Settings.cs:96-97 | A failing list carries the exception of its first failing entry. |
| Settings.ParseAllError | Shellbent/Settings/Settings.cs:96-97 | When every failing entry throws the same exception, the list throws that one. |
| Settings.PredicatesError | Shellbent/Settings/Settings.cs:92-97 | The `Predicates` getter throws nothing but `InvalidOperationException`. |
| Settings.PredicatesThrowOn | Shellbent/Settings/Settings.cs:92-97 | One non-blank entry without a tag character makes the whole list throw. |
| Settings.BlankPredicates | Shellbent/Settings/Settings.cs:86-97 | Blank entries are ignored: only blanks give the empty list. |
| Settings.SettingsTriplet.constructor | Shellbent/Settings/Settings.cs:86-113 | No predicate strings, nothing cached, every setting null. |
| Settings.SettingsTriplet.Predicates | Shellbent/Settings/Settings.cs:91-97 | A cached list is returned as is; otherwise the parse, cached only when it succeeds; no other field changes. |
| Settings.SettingsTriplet.TitleBarForegroundBrush | Shellbent/Settings/Settings.cs:105 | Null exactly when the colour is, else a brush of that colour. |
| Settings.SettingsTriplet.TitleBarBackgroundBrush | Shellbent/Settings/Settings.cs:109 | Null exactly when the colour is, else a brush of that colour. |
| Settings.DefaultPredicates | Shellbent/Settings/Settings.cs:86-97 | A new triplet has no predicates, and editing the strings after the first read changes nothing: the cache answers. |
| Package.Consulted | Shellbent/ShellbentPackage.cs:89 | The resolvers in reverse construction order. |
| Package.LastConstructedWins | Shellbent/ShellbentPackage.cs:89 | When several resolvers declare a tag, the one constructed last answers. |
| Package.AllTriplets | Shellbent/ShellbentPackage.cs:91-95 | User-directory triplets first, then the solution file's, then the defaults. |
| Package.AnySatisfies | Shellbent/ShellbentPackage.cs:99 | `true` only if some resolver says so; `false` exactly when every resolver says `false`. |
| Package.AllSatisfied | Shellbent/ShellbentPackage.cs:99 | `true` exactly when every predicate has a satisfying resolver; `false` only if some predicate has none. |
| Package.TripletDependenciesAreSatisfied | Shellbent/ShellbentPackage.cs:97-100 | A throwing predicate parse propagates; no predicates pass; a pass means every predicate is satisfied by some resolver; a failure names a predicate every resolver refuses. |
| Package.Where | Shellbent/ShellbentPackage.cs:55 | Succeeds exactly when the test never throws; every element kept passes the test and every passing element is kept. Order and multiplicity follow from WhereOne and WhereAppend. |
| Package.WhereNone | Shellbent/ShellbentPackage.cs:55 | When nothing passes, nothing is kept. |
| Package.WhereAppend | Shellbent/ShellbentPackage.cs:55 | Filtering a concatenation concatenates the filtered parts. |
| Package.WhereOne | Shellbent/ShellbentPackage.cs:55 | A single element is kept exactly when the test holds of it, and the test's exception escapes. |
| Package.Passing | Shellbent/ShellbentPackage.cs:55 | Succeeds exactly when no triplet test throws; keeps exactly the triplets whose dependencies are satisfied. |
| Package.PassingAppend | Shellbent/ShellbentPackage.cs:53-55 | The passing triplets of a concatenation are those of the first part followed by those of the second, so the fold sees them in source order. |
| Package.PassingOne | Shellbent/ShellbentPackage.cs:55 | One triplet passes exactly when its dependencies are satisfied; an exception in the test escapes. |
| Package.InfoBlocks | Shellbent/ShellbentPackage.cs:64-72 | One info block per block, in order, text copied and colours made brushes. |
| Package.Or | Shellbent/ShellbentPackage.cs:60-64 | `a ?? b`. |
| Package.FirstOf | Shellbent/ShellbentPackage.cs:60-64 | No value exactly when no triplet sets one. |
| Package.FirstOfAt | Shellbent/ShellbentPackage.cs:60-64 | The value is that of the first triplet that sets it. |
| Package.FirstOfAppend | Shellbent/ShellbentPackage.cs:91-95 | The first value in a concatenation is the first part's, else the second's. |
| Package.FoldFirstNonNull | Shellbent/ShellbentPackage.cs:58-75 | From any accumulator, a set field stays; an unset one becomes the first non-null among the triplets; the title text is untouched. |
| Package.Step | Shellbent/ShellbentPackage.cs:58-72 | One `Aggregate` step: a field already set stays, an unset one takes the triplet's (infos built from its blocks). |
| Package.Fold | Shellbent/ShellbentPackage.cs:58-75 | The `Aggregate` left to right; FoldFirstNonNull states it. |
| Package.TitleBarDataOf | Shellbent/ShellbentPackage.cs:53-75 | The fold over the passing triplets from an empty record; TitleBarDataFirstNonNull states it. |
| Package.TitleBarDataFirstNonNull | Shellbent/ShellbentPackage.cs:53-75 | Every field of the title-bar data is the first non-null among the passing triplets; with none passing, all are null. |
| Package.SourcePrecedence | Shellbent/ShellbentPackage.cs:91-95 | A value set by a passing user-directory triplet beats the solution file's, which beats the defaults'. |
| Package.Make | Shellbent/Models/TitleBarModel.cs:99-112 | A model of the IDE version's kind for the window, or null when the version has none. |
| Package.WindowsOf | Shellbent/ShellbentPackage.cs:248 | The windows of the models, in order. |
| Package.Except | Shellbent/ShellbentPackage.cs:247-248 | `Except`: the distinct windows not excluded, all of them. |
| Package.Lost | Shellbent/ShellbentPackage.cs:243-245 | The known models whose window is not open: each kept one is known and closed, and every known closed one is kept, in order (Linq.FilterAppend). |
| Package.WithoutWindows | Shellbent/ShellbentPackage.cs:255-256 | The models whose window is not listed, all of them, and no window twice if none was before. |
| Package.Discovered | Shellbent/ShellbentPackage.cs:247-251 | New models decorate open, unknown windows, one each; with a known version every such window gets one. |
| Package.Reconciled | Shellbent/ShellbentPackage.cs:253-258 | Every model kept decorates an open window, and every known model whose window is open survives. |
| Package.ReconciledDistinct | Shellbent/ShellbentPackage.cs:253-258 | Reconciliation never gives a window two models if none had two before. |
| Package.ShellbentPackage.constructor | Shellbent/ShellbentPackage.cs:235 | No known models. |
| Package.ShellbentPackage.WindowsLostAndDiscovered | Shellbent/ShellbentPackage.cs:237-262 | Reports the lost and discovered models and replaces the known list with the reconciled one: all on open windows, no window twice if none was before. |
| Text.TakeWhile | Shellbent/Utilities/Parsing.cs:90-93 | The longest prefix of accepted characters. |
| Text.StartsWith | Shellbent/Resolvers/Resolver.cs:47 | The prefix test, compared ordinally. |
| Text.TrimPrefix | Shellbent/Resolvers/Resolver.cs:47-48 | A present prefix is removed (the text is the prefix followed by the result); otherwise the text is unchanged. |
| Text.TrimStart | Shellbent/Resolvers/P4Resolver.cs:81 | The suffix that starts at the first non-blank character: all removed characters are blank. |
| Text.TrimEnd | Shellbent/Resolvers/P4Resolver.cs:81 | The prefix that ends at the last non-blank character: all removed characters are blank. |
| Text.Trim | Shellbent/Resolvers/P4Resolver.cs:81 | `TrimEnd` of `TrimStart`; TrimOf states what it removes. |
| Text.Join | Shellbent/Resolvers/Resolver.cs:36 | `Aggregate((a, b) => a + d + b)` on a non-empty list; JoinSplit and SplitJoin state it. |
| Text.Split | Shellbent/Resolvers/Resolver.cs:31 | `String.Split`: at least one piece, none containing the delimiter. |
| Text.Lines | Shellbent/Resolvers/SvnResolver.cs:82 | One line per `\n`-separated piece. |
| Text.ParseInt32 | Shellbent/Resolvers/Resolver.cs:28-29 | `int.Parse` succeeds only within the 32-bit range. |
| Text.JoinSplit | Shellbent/Resolvers/Resolver.cs:31-36 | Joining the split pieces with the delimiter gives the text back. |
| Text.SplitJoin | Shellbent/Resolvers/Resolver.cs:31-36 | Splitting delimiter-free pieces after joining gives the pieces back. |
| Text.TrimOf | Shellbent/Resolvers/P4Resolver.cs:81 | `Trim` removes exactly the surrounding white space. |
| Linq.ReverseReverse | Shellbent/Resolvers/Resolver.cs:32-35 | Reversing twice is the identity. |
| Linq.Reverse | Shellbent/Resolvers/Resolver.cs:32 | `Reverse` keeps the length. |
| Linq.ReverseAt | Shellbent/Resolvers/Resolver.cs:32 | Element `k` of the reversal is element `n-1-k` of the input. |
| Linq.Filter | Shellbent/ShellbentPackage.cs:243-245 | `Where` keeps only accepted elements and every accepted element; order and multiplicity follow from FilterOne and FilterAppend. |
| Linq.FilterOne | Shellbent/ShellbentPackage.cs:243-245 | One element is kept exactly when the test accepts it. |
| Linq.FilterAppend | Shellbent/ShellbentPackage.cs:243-245 | Filtering a concatenation concatenates the filtered parts, which fixes the order and the multiplicity of what is kept. |
| Linq.Skip | Shellbent/Resolvers/Resolver.cs:33 | `Skip(n)` keeps all but the first `n` elements (all of them for `n <= 0`, none for `n` past the end), each in its place from the end. |
| Linq.Take | Shellbent/Resolvers/Resolver.cs:34 | `Take(n)` keeps the first `n` elements (none for `n <= 0`, all for `n` past the end). |
| Linq.TakeSkip | Shellbent/Resolvers/Resolver.cs:33-34 | For every count, what `Take` keeps followed by what `Skip` keeps is the whole sequence. |

## Left out

- Process execution (`ExecuteProcess`, `p4 clients`, `git`, `svn info`, `vsr info`) is not run. Each captured output is a parameter, `None` standing for null or a thrown exception.
- The `PATH` scan for `git.exe` (GitResolver.cs:107-114) is the constructor's argument.
- The file system is a map from a directory (its path segments) to its subdirectory names. `FileInfo.FullName` normalisation (`..`, relative paths, case) is not modelled.
- File watchers are a `watching` flag. `Changed` events are a counter, or a callback log for TitleBarNone's resolver.
- `SplitIntoLines` is not part of this model. It is taken to split on `\n` and drop a trailing `\r` (`Text.Lines`).
- `string.StartsWith(string)` is culture-sensitive in .NET; the model compares ordinally.
- `char.IsNumber` and `char.IsWhiteSpace` are restricted to Latin-1 and the Unicode space characters; regex case folding is ASCII only.
- P4Resolver.OnBeforeSolutionOpened, lines 24-48: the parse of `p4 clients` into a root-to-client map and the `FindAncestor` search are not modelled. P4Resolvers.P4Resolver.Bind starts from the ancestor found and the map.
- P4Resolvers.ExtractFirstView: for a quoted view the code appends the `ToString()` of a LINQ iterator. That text is the parameter `iteratorText`.
- Settings.cs has no `Vs2017TitleBarBackgroundBrush` or `Vs2019TitleBarBackgroundBrush`, although ShellbentPackage.cs:61-62 reads them. The fold therefore reads a value snapshot (`TripletData`) that carries them as plain fields.
- Settings.SettingsTriplet.Predicates: a null entry in `PredicateString` (a `NullReferenceException` in `Trim`) is not modelled; entries are strings.
- YAML deserialisation (`ParseYaml`) and the change providers are not modelled; triplets are given.
- UI and threading are not modelled: `UpdateModelsAsync`, the dispatcher, `ChangeWindowTitle`, `WriteOutput`, `InitializeAsync`, and the drawing done by the title-bar models.
- Window enumeration and IDE version detection are parameters. The IDE version's model kind is an `Option<ModelKind>`.
- `GetAllParentDirectories` lists ancestors outermost first, so the marker found (`.git`, `.svn`, `.versionr`) is that of the outermost enclosing repository, not the nearest (ResolverUtils.MarkerOutermost).
- The Git, Svn, Vsr, Solution and Shellbent IDE resolvers override `SatisfiesPredicateImpl` and `ResolvableImpl` and call a three-argument `ExecuteProcess`, none of which the shipped Resolver.cs declares. Each is modelled with exactly its own members. Only the members whose meaning Resolver.cs fixes (tags, `ResolveBoolean`, `Resolve`, `SatisfiesDependency`) make up the engine's `Resolver` view, which TitleBarNone's IDE resolver is given (IdeResolvers.TitleBarNoneView).
- P4Resolvers.P4Resolver.Resolve and the other resolvers' `Resolve`: the `VsState` argument is dropped where the member does not read it.
- SvnResolvers.SvnResolver.SvnFolderChanged and the other handlers raise `Changed` by counting; the listeners' reactions are not modelled.
- Floating point and colour conversion do not occur; colours are four bytes.
- Settings.ConvertFrom: an `InstanceDescriptor` value, which `CanConvertFrom` accepts and the base `TypeConverter.ConvertFrom` invokes, is not modelled; only strings, null and values of other types are inputs.
