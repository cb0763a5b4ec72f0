# gel macro expansion, modelled in Dafny

gel is a build-time preprocessor for PostgreSQL. It reads `.sql` files written
with shorthand markers and rewrites each line into plain SQL:
- `func`, `func!`, `proc` and `proc!` open a function or procedure block;
- `exec!` and `|>` are macros inside immutable procedures;
- any other line is passed through with a comment that names where it came from.

The files are:
- `go_strings.dfy` (module `GoStrings`): models of the Go library calls the engine relies on.
  - `strings.Replace` with n = -1 and n = 1, `strings.Trim`, `bytes.TrimSpace`, ASCII `strings.ToLower`.
  - `strconv.Itoa`, `strings.TrimSuffix`, and `strings.Split` and `strings.Join`, which state what replace-all does to a whole line.
  - Literal regular expressions, modelled as substring containment.
  - Each comes with lemmas that state what the call computes.
- `token.dfy` (module `Token`): the token enumeration and the marker table `tokens`.
  - `Token.String`.
  - The `keywords` map that `init` fills in a loop; the loop is proved to build exactly the literal map.
  - `Lookup`.
- `scanner.dfy` (module `Scanner`): the per-line node and its classifiers.
  - `Ast` has constant origin fields and a mutable `source` field.
  - The classifiers, `EmptyAstNode` and `filepath.Ext`.
  - The loader's buffer, with the line numbering of `findSQLFiles` as a method.
- `macros.dfy` (module `Macros`): the text each rewrite produces, as pure functions.
  - Schema header, opener header, closers, exec, scope, default.
  - The query macro, with its `{{(.*?)}}` match search.
- `parser.dfy` (module `Parser`) has two halves.
  - Functions that state the expansion pass over a node sequence:
    - `Choose` is the ordered switch;
    - `Emit` is the text a node ends up with;
    - `Step`/`Run`/`States` give the namespace and block state after each prefix;
    - `Events`/`Trace` give the opener and closer events.
  - The `Parser` class. Its methods update `currentNamespace`, `currentState` and each node's `source` in place. They are proved against those functions.
  - Lemmas prove the invariants:
    - openers and closers alternate;
    - every open block is closed exactly once, by its own closer;
    - the closer texts are fixed per state;
    - the schema header survives only on empty lines;
    - the scope macro is unreachable;
    - each line kind has its own rewrite.

Two consequences of the code's order of operations:
- The schema header is written into a node's text before the switch, and every non-empty case overwrites that text. So the header reaches the output only when a node whose namespace differs from the previous node's is empty (`Parser.HeaderSurvivesOnlyOnEmpty`).
- An opener keeps the routine name. For example, `func! add(a int)` in namespace `math` becomes `CREATE OR REPLACE function math.add(a int)` (`Macros.OpenerQualifies`).

## Model

| member | source | states |
|---|---|---|
| GoStrings.TrimSuffix | scanner.go:115 | when `s` ends with the suffix, the result followed by the suffix is `s`; otherwise `s` is returned unchanged |
| GoStrings.ContainsIff | scanner.go:38-71 | the containment scan used for literal patterns answers true exactly when the pattern occurs at some index |
| GoStrings.ContainsTransitive | scanner.go:38-56 | whatever contains `a` contains everything `a` contains (so a line containing `func!` contains `func`) |
| GoStrings.ReplaceAllSame | parser.go:81 | replacing every occurrence of a string with itself changes nothing |
| GoStrings.ReplaceAllAbsent | parser.go:178 | replacing every occurrence of a non-empty target that does not occur changes nothing |
| GoStrings.ReplaceAllLeading | parser.go:81 | a leading occurrence followed by text without one is replaced once, at the start |
| GoStrings.ReplaceAllFirst | parser.go:178 | replace-all on a string whose first occurrence of the target is at `i` keeps the text before `i`, puts `repl` there, and goes on replacing after that occurrence |
| GoStrings.ReplaceAllSkip | parser.go:188 | a prefix without the first rune of the target is kept as it is, and replacing goes on after it |
| GoStrings.SplitJoin | parser.go:178 | joining the parts of a split with its separator gives the text back |
| GoStrings.SplitPartsFree | parser.go:178 | no part of a split holds the separator |
| GoStrings.ReplaceAllSplit | parser.go:178 | replace-all of a non-empty target is the split at the target joined with the replacement |
| GoStrings.NoOccurrenceInside | parser.go:178 | when the last rune of `t` occurs only at its end, no occurrence of `t` starts inside a part without one that `t` follows |
| GoStrings.ReplaceAllJoin | parser.go:178 | replace-all on parts joined by such a target, no part holding it, gives the same parts joined by the replacement: every separator is replaced and nothing else |
| GoStrings.ReplaceFirstAbsent | parser.go:194 | replace-first of a target that does not occur changes nothing |
| GoStrings.ReplaceFirstFirst | parser.go:199 | replace-first replaces the first occurrence of the target, at `i` when none starts before `i`, and keeps the text on both sides |
| GoStrings.ReplaceFirstLeading | parser.go:203 | replace-first of an occurrence at index 0 replaces it and keeps the rest |
| GoStrings.NoRuneNoContains | parser.go:197-200 | text without the first rune of `sub` does not contain `sub` |
| GoStrings.TrimLeftIsSuffix | parser.go:53 | trimming on the left leaves a suffix, removes only cut-set runes, and leaves no cut-set rune at its front |
| GoStrings.TrimRightIsPrefix | parser.go:53 | trimming on the right leaves a prefix, removes only cut-set runes, and leaves no cut-set rune at its end |
| GoStrings.TrimSpec | parser.go:53 | Trim keeps a contiguous middle part, removes only cut-set runes around it, and leaves none at either end |
| GoStrings.TrimEmptyIff | scanner.go:73-80 | trimming leaves nothing exactly when every rune is in the cut set |
| GoStrings.ToLowerIdempotent | token/token.go:42 | folding case twice is folding it once |
| GoStrings.ToLowerFixed | token/token.go:36 | text without upper-case letters is its own lower-case form |
| GoStrings.DigitsRoundTrip | scanner.go:91-93 | the decimal digits of `n` are non-empty digits without a leading zero, and read back to `n` |
| GoStrings.ItoaRoundTrip | scanner.go:91-93 | the decimal form of any integer is non-empty and reads back to the integer |
| Token.StringOutsideMarkers | token/token.go:49-55 | START, EOF and every value outside the marker table print as the empty string |
| Token.MarkersDistinct | token/token.go:20-29 | the markers from COMMENT to QUERY are non-empty, and the table entries from COMMENT to IDENT are pairwise distinct |
| Token.MarkersAreLowerCase | token/token.go:20-29 | lower-casing a marker leaves it unchanged |
| Token.TableStepCovers | token/token.go:35-36 | adding the next marker keeps every earlier marker under its own token |
| Token.TableStepWithin | token/token.go:35-36 | adding the next marker keeps every key the marker of some token |
| Token.TableStep | token/token.go:35-36 | one iteration of the init loop extends the partial keyword table by exactly one token |
| Token.KeywordTableCovers | token/token.go:33-38 | a complete keyword table holds every entry of the literal map |
| Token.KeywordTableWithin | token/token.go:33-38 | a complete keyword table holds no other key |
| Token.KeywordTableUnique | token/token.go:33-38 | only one map is a complete keyword table: the literal one |
| Token.Init | token/token.go:33-38 | the init loop builds the map from each lower-cased marker, COMMENT to IDENT, to its token, and that map is the literal table |
| Token.KeywordsHoldMarkers | token/token.go:33-38 | each marker from COMMENT to IDENT is a key of the keyword map, under its own token |
| Token.Lookup | token/token.go:41-46 | the result is always a token strictly between START and EOF |
| Token.LookupString | token/token.go:41-46 | every token from COMMENT to IDENT is found again from its own marker |
| Token.LookupCaseInsensitive | token/token.go:41-46 | looking up a string is the same as looking up its lower-case form |
| Token.LookupIdentIff | token/token.go:41-46 | the answer is IDENT exactly when the lower-cased string is none of the seven markers |
| Scanner.Ast.constructor | scanner.go:24-30 | a node holds the given origin, position, raw text and emitted text |
| Scanner.IsEmptyIff | scanner.go:73-80 | a line is empty exactly when every rune of it is white space |
| Scanner.WhiteSpaceClasses | scanner.go:73-89 | a newline-only line is empty, and a line led by white space starts with a rune that trimming removes |
| Scanner.ImmutableImpliesPlain | scanner.go:38-56 | a `func!` line also classifies as `func`, and a `proc!` line as `proc` |
| Scanner.IsQueryAlways | scanner.go:63-66 | the query pattern matches every line |
| Scanner.ClassifiersReadOnlyText | scanner.go:38-97 | two nodes with the same raw text get the same answer from every classifier |
| Scanner.EmptyAstNode | scanner.go:32-36 | a fresh node with empty origin, position 0, empty raw and emitted text, which classifies as empty |
| Scanner.ExtIsSuffix | scanner.go:113 | a non-empty extension is a suffix of the path that starts with '.' and has no other '.' or '/' |
| Scanner.ExtIsSql | scanner.go:113 | the extension is ".sql" exactly when the name ends with ".sql" |
| Scanner.Scanner.constructor | scanner.go:99-103 | a loader for the path with an empty buffer |
| Scanner.Scanner.FindSQLFiles | scanner.go:112-138 | for a `.sql` name, one fresh node per line is appended in order: namespace is the name without `.sql`, positions count from 1, text is the line, nothing emitted; any other name leaves the buffer alone; the nodes stay distinct |
| Macros.StripCharsSpec | parser.go:23-30 | no rune of `chr` is left, and every other rune is kept as often as it occurs |
| Macros.StripCharsConcat | parser.go:23-30 | stripping works rune by rune, so it keeps the order of the runes it keeps |
| Macros.StripCharsNone | parser.go:23-30 | text with none of the runes is kept as it is |
| Macros.StripCharsAll | parser.go:23-30 | text made only of the runes is stripped to nothing |
| Macros.FunctionNameOfPlainNamespace | parser.go:52-55 | a namespace without surrounding blanks is used as it is in `function NS.` |
| Macros.OpenerQualifies | parser.go:78-164 | an opener line `marker rest`, with no further `marker `, becomes `CREATE OR REPLACE function NS.rest`, a newline and the language clause |
| Macros.OpenerQualifiesEvery | parser.go:78-164 | for a marker without a blank, a line in which `marker ` occurs any number of times, between parts that hold none, gets every occurrence, and nothing else, replaced by the qualifier |
| Macros.ClosersDistinct | parser.go:214-268 | the four closers are `$$ IMMUTABLE; \n`, `$$ ; \n`, `END; $$ IMMUTABLE; \n` and `END; $$ ; \n`, and no two block states share one |
| Macros.ExecRewritesMarkers | parser.go:177-181 | an exec line made of parts without `exec!` joined by `exec!` becomes the same parts joined by `EXECUTE `: every marker, however many, and nothing else is rewritten; by `GoStrings.SplitJoin` and `GoStrings.SplitPartsFree` every line has this form |
| Macros.ScopePatternsNeverMatch | parser.go:343-346 | the backslash pattern ends in an unpaired backslash, so it does not compile and reports no match; `$SQL` cannot match either |
| Macros.DefaultTextInjective | parser.go:171-175 | the origin comment identifies the line position: two positions give the same passthrough text only if they are equal |
| Macros.CloseBraces | parser.go:185 | a match end found from `j` lies past `j + 2` and within the text |
| Macros.MatchAt | parser.go:185-186 | a match found at `i` ends past the opening braces and a closing `}}`, within the text |
| Macros.CloseBracesIff | parser.go:185 | the inner part of a match ends at `e` exactly when `e` is just past the first `}}` from `j` on and no newline comes before that `}}` |
| Macros.MatchAtIff | parser.go:185-186 | a match starts at `i` and ends at `e` exactly when the opening braces occur at `i` and `e` is just past the first `}}` after them, with no newline in between |
| Macros.MatchNeedsOpen | parser.go:185-186 | no match starts where the opening braces do not occur |
| Macros.FindAllSkip | parser.go:189-190 | positions where no match starts are passed over by the match search |
| Macros.FindAllEmptyIff | parser.go:189-190 | the search from `i` reports nothing exactly when no match starts at or after `i` |
| Macros.FindNext | parser.go:189-190 | the search reports the leftmost match first, then goes on from that match's end |
| Macros.FindAllShift | parser.go:189-190 | the search from an index depends only on the text from that index on |
| Macros.FindPast | parser.go:189-190 | a prefix in which the opening braces do not start is passed over |
| Macros.FindLeading | parser.go:185-190 | a placeholder at the start, whose expression holds no `}` and no newline, is reported whole, and the search goes on after it |
| Macros.FindNone | parser.go:189-190 | the search reports nothing when the opening braces occur nowhere |
| Macros.StripPlaceholder | parser.go:192-200 | stripping a placeholder's delimiters leaves its expression, stripped |
| Macros.PlainValueOf | parser.go:197-200 | `{{e}}`, with no brace in `e`, is replaced by a quote, two bars, `e`, two bars and a quote |
| Macros.QuotedValueOf | parser.go:192-195 | `#{{e}}` is replaced by three quotes, two bars, `e` without its `#`, `{` and `}` runes, two bars and three quotes; the result holds no `{` |
| Macros.LineUnmarked | parser.go:188 | a line made of indentation, an optional query marker and a statement, neither of them holding a marker, loses exactly that marker |
| Macros.QuoteSpaced | parser.go:203 | the blank goes after the first quote when the text before it has none |
| Macros.SubstitutedAt | parser.go:192-200 | one pass over `a + literal + b`, where the literal does not start inside `a`, gives `a + value + b` |
| Macros.PlainUnmarked | parser.go:188 | the indentation `w`, the marker and `a{{e}}b`, or `wa{{e}}b` without the marker, become `wa{{e}}b` |
| Macros.PlainFound | parser.go:185-190 | in `a{{e}}b` the plain search finds the placeholder and the quoted search finds nothing, even when `e` holds a `#` |
| Macros.PlainSubstituted | parser.go:197-200 | the plain pass over `a{{e}}b` replaces the placeholder with its concatenation value |
| Macros.QuotedUnmarked | parser.go:188 | the indentation `w`, the marker and `a#{{e}}b`, or `wa#{{e}}b` without the marker, become `wa#{{e}}b` |
| Macros.QuotedFound | parser.go:185-190 | in `a#{{e}}b` the quoted search finds `#{{e}}` and the plain search finds `{{e}}` |
| Macros.QuotedSubstituted | parser.go:192-200 | the quoted pass over `a#{{e}}b` replaces the placeholder with its tripled-quote value, and the plain pass then finds no `{` and changes nothing |
| Macros.BothUnmarked | parser.go:188 | the indentation `w`, the marker and `a{{e1}}b#{{e2}}c`, or the same without the marker, become `wa{{e1}}b#{{e2}}c` |
| Macros.BothFoundPlain | parser.go:185-190 | in `a{{e1}}b#{{e2}}c` the plain search finds `{{e1}}` and then `{{e2}}` |
| Macros.BothFoundQuoted | parser.go:185-190 | in `a{{e1}}b#{{e2}}c` the quoted search finds only `#{{e2}}`, even when `e1` holds a `#` |
| Macros.BothQuotedPass | parser.go:192-195 | the quoted pass rewrites `#{{e2}}` and leaves `{{e1}}` |
| Macros.BothPlainPass | parser.go:197-200 | the plain pass then rewrites `{{e1}}` and finds the already rewritten `{{e2}}` gone |
| Macros.QueryPlainPlaceholder | parser.go:183-212 | an indented query line, with or without the marker after its indentation, with one `{{e}}` placeholder between inert texts: the marker goes, the indentation stays, the placeholder becomes a string concatenation of `e`, and the blank lands after the quote that opens it |
| Macros.QueryQuotedPlaceholder | parser.go:183-212 | an indented query line, with or without the marker, with one `#{{e}}` placeholder: the indentation stays, and the placeholder becomes a concatenation of `e`, without its `#` runes, between tripled quotes; the plain pass then finds its `{{e}}` gone; the blank lands after the first quote |
| Macros.QueryBothPlaceholders | parser.go:183-212 | an indented query line, with or without the marker, with `{{e1}}` and then `#{{e2}}`: the indentation stays, each becomes its own concatenation, and the blank lands after the quote that opens the first |
| Parser.ChooseGuards | parser.go:297-354 | openers are chosen only in START, the closer only outside it, and neither the fall-through nor the scope macro is ever chosen |
| Parser.StepStaysInPassStates | parser.go:295-328 | one node keeps the state among START and the four block states, and makes the node's namespace current |
| Parser.CloseLine | parser.go:305-308 | a non-empty line not led by white space, inside a block, emits the block's closer alone, drops its text and any header, and returns to START |
| Parser.HeaderSurvivesOnlyOnEmpty | parser.go:295-302 | an empty line keeps the schema header, or its earlier text; a non-empty line's text depends on neither |
| Parser.OpenLine | parser.go:310-328 | an opener line in START emits the qualified header with its kind's language clause and enters that block; `func!` wins over `func` |
| Parser.ImProcBodyLine | parser.go:330-337 | inside an immutable procedure, a non-empty line led by white space gets the exec macro if it has `exec!`, the query macro otherwise, and the block stays open |
| Parser.DefaultLine | parser.go:339-352 | a non-empty line gets the passthrough exactly when it opens nothing in START, or is led by white space in FUNC, IMFUNC or PROC; the state then stays |
| Parser.NamespaceChange | parser.go:57-76 | after a non-empty prefix, the current namespace is that of its last node |
| Parser.StatesAt | parser.go:292-355 | the list of states has one entry per prefix, and entry `i` is the state after the first `i` nodes |
| Parser.RunStaysInPassStates | parser.go:292-355 | a pass started in one of the five states stays in them |
| Parser.EventsPaired | parser.go:305-328 | after any prefix of a pass from START, the open and close events are paired, except for a last opening of the current block when the state is not START |
| Parser.BlocksClosedOnce | parser.go:305-366 | counting the extra closing node, every opened block is closed exactly once, by a closer of its own kind, right after it opens |
| Parser.OpenerStartsCreate | parser.go:78-164 | every opener header starts with `CREATE OR REPLACE ` |
| Parser.OpenedText | parser.go:310-328 | a node that opens a block emits an opener header and enters a block state |
| Parser.ClosedText | parser.go:305-308 | a node that closes a block met it in a block state and emits that block's fixed closer |
| Parser.EventText | parser.go:305-328 | each node yields at most one event: a closing event is the fixed closer of its kind, an opening event an opener header |
| Parser.JoinedAt | parser.go:275-278 | in the output, each node's text sits after those before it and is followed by a newline and the rest |
| Parser.Parser.constructor | parser.go:38-42 | a parser in START, with no namespace and an empty loader for the path |
| Parser.Parser.CreateSchemaDefinition | parser.go:57-76 | at a namespace change the node gets the drop-and-create header and the namespace becomes current; otherwise nothing changes |
| Parser.Parser.OpenKeyWord | parser.go:78-164 | the shared opener: the qualified header with the given language clause, and the given block state |
| Parser.Parser.OpenImFuncKeyWord | parser.go:78-97 | the `func!` header with `LANGUAGE sql AS $$`; the state becomes IMFUNC |
| Parser.Parser.OpenFuncKeyWord | parser.go:99-118 | the `func` header with `LANGUAGE sql AS $$`; the state becomes FUNC |
| Parser.Parser.OpenImProcKeyWord | parser.go:120-141 | the `proc!` header with the plpgsql clause and `DECLARE`; the state becomes IMPROC |
| Parser.Parser.OpenProcKeyWord | parser.go:143-164 | the `proc` header with the plpgsql clause and `DECLARE`; the state becomes PROC |
| Parser.Parser.MacroScopeExpand | parser.go:166-169 | `this.` becomes the namespace and `getv(` gets the `vars.` qualifier |
| Parser.Parser.MacroExpandDefault | parser.go:171-175 | the line followed by ` -- NS:position` |
| Parser.Parser.MacroExpandExec | parser.go:177-181 | every `exec!` becomes `EXECUTE ` |
| Parser.Parser.MacroExpandQuery | parser.go:183-212 | the two replacement loops and the final blank compute the query macro's text |
| Parser.Parser.CloseFuncKeyWord | parser.go:214-226 | the function closer with the given volatility word |
| Parser.Parser.CloseProcKeyWord | parser.go:243-254 | the procedure closer with the given volatility word |
| Parser.Parser.CloseStatment | parser.go:256-268 | the closer of the current block state; in START the node's text stays |
| Parser.Parser.Dispatch | parser.go:297-308 | the switch: the rule `Choose` picks, its text, and its next state |
| Parser.Parser.DispatchOpeners | parser.go:310-328 | the four opener cases of the switch agree with `Choose` |
| Parser.Parser.DispatchBody | parser.go:330-354 | the exec, query, scope and passthrough cases agree with `Choose`, and keep the state |
| Parser.Parser.Visit | parser.go:292-355 | one loop iteration: the node ends with `Emit` and the fields advance by one `Step` |
| Parser.Parser.VisitAt | parser.go:292-355 | the iteration for node `i`, stated against the states of the whole pass |
| Parser.Parser.VisitAll | parser.go:292-355 | after the loop, the fields are the pass over all nodes, and node `j` holds `Emit` of the state after the first `j` nodes |
| Parser.Parser.Compile | parser.go:284-367 | each loaded node holds its `Emit` text. The fields are the end state of the pass, not reset afterwards. Exactly one fresh closing node is appended, with the open block's closer, when that state is not START |
| Parser.Parser.Parse | parser.go:270-282 | what Compile ensures, and the output is every node's text followed by a newline |
| Parser.Concatenate | parser.go:274-278 | the output loop yields every node's text followed by a newline, in order |

## Left out
- pq.go is not part of this model. It runs `psql` and pipes its streams through goroutines: process I/O and concurrency.
- cli.go is not part of this model. It is command-line wiring with an empty action.
- `Scanner.Load` and the directory walk, file opening and line reading of `findSQLFiles` are file-system I/O. `Scanner.Scanner.FindSQLFiles` takes the file name, its location and its lines as parameters. `Compile` takes the buffer as already loaded.
- `trace`, the color output and the `fmt.Println` calls are diagnostics. `Parse` returns its text instead of printing it.
- Go's regular-expression engine is not modelled. The marker patterns are modelled as substring containment. `|>` is modelled as its alternation with an empty branch. Of the scope patterns, the lone backslash is modelled by the one syntax error it hits, an unpaired trailing backslash, and `$SQL` by its end-of-text anchor. `{{(.*?)}}` and `#{{(.*?)}}` are modelled as a leftmost, shortest, single-line scan.
- `CloseExecKeyWord` (parser.go:229-239) is never called.
- `Parser.Ast` and `Ast.Text` are inlined: one returns the buffer, the other the raw text.
- `Scanner.Tree` is never used by the core.
- The `Bytes` field of a node is left out. It aliases the line reader's buffer, so `IsEmpty` is taken over the raw text.
- Token.Lookup: case folding is ASCII only, because Unicode case mapping is not modelled.
- GoStrings.TrimSpace: strings are sequences of runes. Invalid UTF-8 bytes are not represented.
- Parser.Parser.Compile: requires the loaded nodes to be distinct objects. The loader creates one node per line, so aliased nodes do not arise.
- Parser.Parser.DispatchBody: the scope macro's branch is unreachable, so `MacroScopeExpand` is modelled and specified but never called from the pass.
- Macros.OpenerQualifiesEvery: requires a marker without a blank, which all four opener markers are.
- Macros.QueryPlainPlaceholder, Macros.QueryQuotedPlaceholder and Macros.QueryBothPlaceholders: these state the query macro for a line made of indentation, an optional `|> ` after it and a statement with one placeholder, or a plain one followed by a quoted one. The indentation and the text around the placeholders hold no brace, `#`, quote, bar or newline. Each expression holds no brace, no newline and no `|> `. Other lines are covered only by the general definition `Macros.QueryText`.
