/** The text each rewrite rule of the expansion pass produces, as functions of
    the line text, the namespace and the line position: schema headers, block
    openers and closers, the exec and query macros inside immutable procedures,
    the scope macro and the default passthrough. */
module Macros {
  import opened GoStrings
  import opened Token

  datatype Option<T> = None | Some(value: T)

  /** stripchars: the runes of `str` that are not in `chr`, in their order. */
  function StripChars(str: string, chr: string): string
    decreases |str|
  {
    if |str| == 0 then []
    else (if str[0] in chr then [] else [str[0]]) + StripChars(str[1..], chr)
  }

  /** No rune of `chr` is left, and every other rune is kept as often as it
      occurs. */
  lemma {:induction false} StripCharsSpec(str: string, chr: string)
    ensures var r := StripChars(str, chr);
            (forall k :: 0 <= k < |r| ==> r[k] !in chr) &&
            (forall c :: multiset(r)[c] == if c in chr then 0 else multiset(str)[c])
    decreases |str|
  {
    if |str| > 0 {
      StripCharsSpec(str[1..], chr);
      assert str == [str[0]] + str[1..];
    }
  }

  /** Stripping works rune by rune, so it keeps the order of what it keeps. */
  lemma {:induction false} StripCharsConcat(a: string, b: string, chr: string)
    ensures StripChars(a + b, chr) == StripChars(a, chr) + StripChars(b, chr)
    decreases |a|
  {
    if |a| > 0 {
      assert (a + b)[1..] == a[1..] + b;
      StripCharsConcat(a[1..], b, chr);
    } else {
      assert a + b == b;
    }
  }

  /** A string with none of the runes is left as it is. */
  lemma {:induction false} StripCharsNone(s: string, chr: string)
    requires forall k :: 0 <= k < |s| ==> s[k] !in chr
    ensures StripChars(s, chr) == s
    decreases |s|
  {
    if |s| > 0 {
      StripCharsNone(s[1..], chr);
      assert [s[0]] + s[1..] == s;
    }
  }

  /** functionName: the qualifier that replaces an opener marker. */
  function FunctionName(namespace: string): string {
    "function " + Trim(namespace, {' '}) + "."
  }

  /** A namespace without surrounding blanks is used as it is. */
  lemma FunctionNameOfPlainNamespace(namespace: string)
    requires |namespace| > 0 ==> namespace[0] != ' ' && namespace[|namespace| - 1] != ' '
    ensures FunctionName(namespace) == "function " + namespace + "."
  {
    TrimSpec(namespace, {' '});
    var r := Trim(namespace, {' '});
    var i :| TrimmedAt(namespace, r, i, {' '});
    if |namespace| > 0 {
      assert i == 0;
      assert |r| == |namespace|;
    }
  }

  /** The schema reset emitted at a namespace boundary. */
  function SchemaHeader(namespace: string): string {
    "drop schema if exists " + namespace + " cascade;" + "\n" + "create schema " + namespace + ";" + "\n"
  }

  /** The language clause after a function header and after a procedure header. */
  const FunctionLanguage: string := "LANGUAGE sql AS $$"
  const ProcedureLanguage: string := " LANGUAGE plpgsql AS $$ " + "\n" + "DECLARE"

  /** The header an opener emits: every `marker` followed by a blank becomes the
      namespace-qualified `function` keyword, then the language clause follows
      on a new line. */
  function OpenerText(marker: string, namespace: string, text: string, language: string): string {
    "CREATE OR REPLACE " + ReplaceAll(text, marker + " ", FunctionName(namespace)) + "\n" + language
  }

  /** A line that starts with the marker and a blank, and has no further
      occurrence of them, is qualified once at its start. */
  lemma OpenerQualifies(marker: string, namespace: string, rest: string, language: string)
    requires !Contains(rest, marker + " ")
    ensures OpenerText(marker, namespace, marker + " " + rest, language) ==
            "CREATE OR REPLACE " + FunctionName(namespace) + rest + "\n" + language
  {
    ReplaceAllLeading(marker + " ", rest, FunctionName(namespace));
  }

  /** A line in which the marker and a blank occur any number of times, as
      separators of parts that hold none: each occurrence is qualified, and
      nothing else changes. A marker without a blank cannot overlap itself. */
  lemma OpenerQualifiesEvery(marker: string, namespace: string, parts: seq<string>, language: string)
    requires ' ' !in marker
    requires forall k :: 0 <= k < |parts| ==> !Contains(parts[k], marker + " ")
    ensures OpenerText(marker, namespace, Join(parts, marker + " "), language) ==
            "CREATE OR REPLACE " + Join(parts, FunctionName(namespace)) + "\n" + language
  {
    var t := marker + " ";
    forall k | 0 <= k < |t| - 1 ensures t[k] != t[|t| - 1] {
      assert t[k] == marker[k];
    }
    ReplaceAllJoin(parts, t, FunctionName(namespace));
  }

  /** CloseFuncKeyWord and CloseProcKeyWord, with the volatility word `state`. */
  function CloseFunc(state: string): string {
    "$$ " + state + ";" + " " + "\n"
  }

  function CloseProc(state: string): string {
    "END; $$ " + state + ";" + " " + "\n"
  }

  /** CloseStatment: the closer for the open block state; in any other state the
      node's current text stays. */
  function CloseText(state: Token, current: string): string {
    if state == FUNC then CloseFunc("IMMUTABLE")
    else if state == IMFUNC then CloseFunc("")
    else if state == PROC then CloseProc("IMMUTABLE")
    else if state == IMPROC then CloseProc("")
    else current
  }

  /** The four block states are the ones with a closer; each closer is fixed,
      ends with "; \n", and no two block states share one. */
  lemma ClosersDistinct(s: Token, t: Token, current: string)
    requires s in {FUNC, IMFUNC, PROC, IMPROC} && t in {FUNC, IMFUNC, PROC, IMPROC}
    ensures s == FUNC ==> CloseText(s, current) == "$$ IMMUTABLE; \n"
    ensures s == IMFUNC ==> CloseText(s, current) == "$$ ; \n"
    ensures s == PROC ==> CloseText(s, current) == "END; $$ IMMUTABLE; \n"
    ensures s == IMPROC ==> CloseText(s, current) == "END; $$ ; \n"
    ensures s != t ==> CloseText(s, current) != CloseText(t, current)
  {
    assert "$$ IMMUTABLE; \n"[0] != "END; $$ IMMUTABLE; \n"[0];
    assert "$$ ; \n"[0] != "END; $$ ; \n"[0];
  }

  /** MacroExpandExec: every "exec!" becomes "EXECUTE ". */
  function ExecText(text: string): string {
    ReplaceAll(text, "exec!", "EXECUTE ")
  }

  /** An exec line is its "exec!" markers with parts between them that hold
      none: every marker, and nothing else, is rewritten. */
  lemma ExecRewritesMarkers(parts: seq<string>)
    requires forall k :: 0 <= k < |parts| ==> !Contains(parts[k], "exec!")
    ensures ExecText(Join(parts, "exec!")) == Join(parts, "EXECUTE ")
  {
    ExecMarkerUnique();
    ReplaceAllJoin(parts, "exec!", "EXECUTE ");
  }

  /** "exec!" ends in the only '!' it has. */
  lemma ExecMarkerUnique()
    ensures LastRuneUnique("exec!")
  {
    var t := "exec!";
    forall k | 0 <= k < |t| - 1 ensures t[k] != t[|t| - 1] {
      assert t == ['e', 'x', 'e', 'c', '!'];
    }
  }

  /** MacroScopeExpand: "this." becomes the namespace and "getv(" gets the vars
      qualifier. */
  function ScopeText(namespace: string, text: string): string {
    ReplaceAll(ReplaceAll(text, "this.", namespace + "."), "getv(", "vars.getv(")
  }

  /** The backslashes that end a pattern. */
  function TrailingBackslashes(pattern: string): nat
    decreases |pattern|
  {
    if |pattern| == 0 || pattern[|pattern| - 1] != '\\' then 0
    else 1 + TrailingBackslashes(pattern[..|pattern| - 1])
  }

  /** Go's regexp parser rejects a pattern that ends in an unpaired backslash
      ("trailing backslash at end of expression"). This is the only syntax
      error modelled. */
  predicate Compiles(pattern: string) {
    TrailingBackslashes(pattern) % 2 == 0
  }

  /** The first scope pattern, a lone backslash. */
  const SlashPattern: string := "\\"

  /** regexp.MatchString with the backslash pattern: a pattern that does not
      compile gives an error and no match; one that did would match its
      literal text. */
  function SlashPatternMatches(text: string): bool {
    Compiles(SlashPattern) && Contains(text, SlashPattern)
  }

  /** The pattern "$SQL": without the multi-line flag `$` matches only at the
      end of the text, where no "SQL" can follow. */
  function SqlPatternMatches(text: string): bool {
    exists i :: i == |text| && IsPrefix("SQL", text[i..])
  }

  /** Neither scope pattern ever matches, so the scope macro is never chosen. */
  lemma ScopePatternsNeverMatch(text: string)
    ensures !SlashPatternMatches(text) && !SqlPatternMatches(text)
  {
    assert TrailingBackslashes(SlashPattern) == 1;
  }

  /** MacroExpandDefault: the line followed by a comment naming its origin. */
  function DefaultText(text: string, namespace: string, line: int): string {
    text + " -- " + namespace + ":" + Itoa(line)
  }

  /** The origin comment identifies the line position. */
  lemma DefaultTextInjective(text: string, namespace: string, p: int, q: int)
    requires DefaultText(text, namespace, p) == DefaultText(text, namespace, q)
    ensures p == q
  {
    var head := text + " -- " + namespace + ":";
    assert DefaultText(text, namespace, p) == head + Itoa(p);
    assert DefaultText(text, namespace, q) == head + Itoa(q);
    assert Itoa(p) == (head + Itoa(p))[|head|..];
    assert Itoa(q) == (head + Itoa(q))[|head|..];
    ItoaRoundTrip(p);
    ItoaRoundTrip(q);
  }

  // ---------------------------------------------------------------------------
  // The query macro. Go's regexp `{{(.*?)}}` finds, from the left, the first
  // "{{" that has a "}}" after it on the same line and ends the match at the
  // first such "}}"; `#{{(.*?)}}` is the same with a leading '#'.

  /** The end of a match whose inner part starts at `j`: just past the first
      "}}" at or after `j`, unless a newline comes first. */
  function CloseBraces(s: string, j: nat): (e: Option<nat>)
    ensures e.Some? ==> j + 2 <= e.value <= |s|
    decreases |s| - j
  {
    if j + 2 > |s| then None
    else if s[j] == '}' && s[j + 1] == '}' then Some(j + 2)
    else if s[j] == '\n' then None
    else CloseBraces(s, j + 1)
  }

  /** The end of the match of `open` + `(.*?)}}` starting at `i`, if any. */
  function MatchAt(s: string, open: string, i: nat): (e: Option<nat>)
    ensures e.Some? ==> i + |open| + 2 <= e.value <= |s|
  {
    if i <= |s| && IsPrefix(open, s[i..]) then CloseBraces(s, i + |open|) else None
  }

  /** FindAllString from index `i`: the leftmost match, then the matches after
      its end, without overlap. */
  function FindAll(s: string, open: string, i: nat): seq<string>
    decreases |s| - i
  {
    if i >= |s| then []
    else match MatchAt(s, open, i)
      case Some(e) => [s[i..e]] + FindAll(s, open, e)
      case None => FindAll(s, open, i + 1)
  }

  /** The replacement of a `#{{e}}` match and of a `{{e}}` match. */
  function QuotedValue(literal: string): string {
    "'''||" + StripChars(literal, "#{}") + "||'''"
  }

  function PlainValue(literal: string): string {
    "'||" + StripChars(literal, "{}") + "||'"
  }

  function Value(literal: string, quoted: bool): string {
    if quoted then QuotedValue(literal) else PlainValue(literal)
  }

  /** The loops of MacroExpandQuery: each literal in turn has its first
      occurrence in the current statement replaced. */
  function Substitute(statement: string, literals: seq<string>, quoted: bool): string
    decreases |literals|
  {
    if |literals| == 0 then statement
    else
      var last := literals[|literals| - 1];
      ReplaceFirst(Substitute(statement, literals[..|literals| - 1], quoted), last, Value(last, quoted))
  }

  /** MacroExpandQuery: drop every "|> ", replace each `#{{e}}` and then each
      `{{e}}` found in the stripped line, then put a blank after the first quote. */
  function QueryText(text: string): string {
    var statement := ReplaceAll(text, "|> ", "");
    var vars := FindAll(statement, "{{", 0);
    var qvars := FindAll(statement, "#{{", 0);
    var quoted := Substitute(statement, qvars, true);
    var plain := Substitute(quoted, vars, false);
    ReplaceFirst(plain, "'", "' ")
  }

  /** Runes that play no part in the query macro's own syntax. */
  predicate Inert(s: string) {
    '{' !in s && '}' !in s && '#' !in s && '\'' !in s && '|' !in s && '\n' !in s
  }

  /** What a placeholder's expression may hold and still reach the output as
      written: no brace, no newline, and no query marker. */
  predicate PlaceholderBody(e: string) {
    '{' !in e && '}' !in e && '\n' !in e && !Contains(e, "|> ")
  }

  /** CloseBraces finds exactly the first "}}" at or after `j` that no newline
      precedes. */
  lemma {:induction false} CloseBracesIff(s: string, j: nat, e: nat)
    ensures CloseBraces(s, j) == Some(e) <==>
            j + 2 <= e <= |s| && s[e - 2] == '}' && s[e - 1] == '}' &&
            forall k :: j <= k < e - 2 ==> s[k] != '\n' && !(s[k] == '}' && s[k + 1] == '}')
    decreases |s| - j
  {
    if j + 2 <= |s| && !(s[j] == '}' && s[j + 1] == '}') && s[j] != '\n' {
      CloseBracesIff(s, j + 1, e);
    }
  }

  /** A match of `open` + `(.*?)}}` at `i` ends at `e` exactly when `open`
      occurs at `i` and the first "}}" after it, with no newline before that,
      ends at `e`. */
  lemma MatchAtIff(s: string, open: string, i: nat, e: nat)
    ensures MatchAt(s, open, i) == Some(e) <==>
            OccursAt(s, open, i) && i + |open| + 2 <= e <= |s| && s[e - 2] == '}' && s[e - 1] == '}' &&
            forall k :: i + |open| <= k < e - 2 ==> s[k] != '\n' && !(s[k] == '}' && s[k + 1] == '}')
  {
    if i <= |s| {
      PrefixOccurs(s[i..], open);
      if |open| <= |s| - i {
        assert s[i..][0..|open|] == s[i..i + |open|];
      }
    }
    CloseBracesIff(s, i + |open|, e);
  }

  /** No match starts where `open` does not occur. */
  lemma MatchNeedsOpen(s: string, open: string, i: nat)
    ensures MatchAt(s, open, i).Some? ==> OccursAt(s, open, i)
  {
    match MatchAt(s, open, i) {
      case Some(e) => MatchAtIff(s, open, i, e);
      case None =>
    }
  }

  /** Positions where no match starts are passed over. */
  lemma {:induction false} FindAllSkip(s: string, open: string, i: nat, j: nat)
    requires i <= j <= |s|
    requires forall k :: i <= k < j ==> MatchAt(s, open, k).None?
    ensures FindAll(s, open, i) == FindAll(s, open, j)
    decreases j - i
  {
    if i < j {
      assert MatchAt(s, open, i).None?;
      FindAllSkip(s, open, i + 1, j);
    }
  }

  /** The search from `i` reports nothing exactly when no match starts at or
      after `i`. */
  lemma {:induction false} FindAllEmptyIff(s: string, open: string, i: nat)
    ensures FindAll(s, open, i) == [] <==> forall k :: i <= k < |s| ==> MatchAt(s, open, k).None?
    decreases |s| - i
  {
    if i < |s| && MatchAt(s, open, i).None? {
      FindAllEmptyIff(s, open, i + 1);
    }
  }

  /** The search from `j` reports the leftmost match first, the one at `i`
      ending at `e`, and then goes on from its end. */
  lemma FindNext(s: string, open: string, j: nat, i: nat, e: nat)
    requires j <= i && MatchAt(s, open, i) == Some(e)
    requires forall k :: j <= k < i ==> MatchAt(s, open, k).None?
    ensures FindAll(s, open, j) == [s[i..e]] + FindAll(s, open, e)
  {
    FindAllSkip(s, open, j, i);
  }

  /** The search for the closing braces looks only at the text from `j` on ... */
  lemma {:induction false} CloseBracesShift(x: string, y: string, j: nat)
    ensures CloseBraces(x + y, |x| + j) ==
            if CloseBraces(y, j).Some? then Some(|x| + CloseBraces(y, j).value) else None
    decreases |y| - j
  {
    if j + 2 <= |y| {
      assert (x + y)[|x| + j..|x| + j + 2] == y[j..j + 2];
      CloseBracesShift(x, y, j + 1);
    }
  }

  /** ... so does a match ... */
  lemma MatchAtShift(x: string, y: string, open: string, i: nat)
    ensures MatchAt(x + y, open, |x| + i) ==
            if MatchAt(y, open, i).Some? then Some(|x| + MatchAt(y, open, i).value) else None
  {
    if i <= |y| {
      assert (x + y)[|x| + i..] == y[i..];
    }
    CloseBracesShift(x, y, i + |open|);
  }

  /** ... and so does the search from `i`. */
  lemma {:induction false} FindAllShift(x: string, y: string, open: string, i: nat)
    ensures FindAll(x + y, open, |x| + i) == FindAll(y, open, i)
    decreases |y| - i
  {
    if i < |y| {
      MatchAtShift(x, y, open, i);
      match MatchAt(y, open, i) {
        case Some(e) =>
          assert (x + y)[|x| + i..|x| + e] == y[i..e];
          FindAllShift(x, y, open, e);
        case None =>
          FindAllShift(x, y, open, i + 1);
      }
    }
  }

  /** A prefix in which `open` does not start is passed over. */
  lemma FindPast(x: string, y: string, open: string)
    requires forall k :: 0 <= k < |x| ==> !OccursAt(x + y, open, k)
    ensures FindAll(x + y, open, 0) == FindAll(y, open, 0)
  {
    forall k | 0 <= k < |x| ensures MatchAt(x + y, open, k).None? {
      MatchNeedsOpen(x + y, open, k);
    }
    FindAllSkip(x + y, open, 0, |x|);
    FindAllShift(x, y, open, 0);
  }

  /** A placeholder at the start, whose expression holds no '}' and no
      newline, is reported whole, and the search goes on after it. */
  lemma FindLeading(open: string, e: string, y: string)
    requires '}' !in e && '\n' !in e
    ensures FindAll(open + e + "}}" + y, open, 0) == [open + e + "}}"] + FindAll(y, open, 0)
  {
    var lit := open + e + "}}";
    var s := lit + y;
    var m := |open| + |e|;
    assert s[0..|open|] == open;
    assert s[m] == '}' && s[m + 1] == '}';
    forall k | |open| <= k < m ensures s[k] != '\n' && s[k] != '}' {
      assert s[k] == e[k - |open|];
    }
    MatchAtIff(s, open, 0, m + 2);
    FindNext(s, open, 0, 0, m + 2);
    assert s[0..m + 2] == lit;
    FindAllShift(lit, y, open, 0);
  }

  /** The search reports nothing where `open` does not occur. */
  lemma FindNone(s: string, open: string)
    requires forall k :: 0 <= k < |s| ==> !OccursAt(s, open, k)
    ensures FindAll(s, open, 0) == []
  {
    forall k | 0 <= k < |s| ensures MatchAt(s, open, k).None? {
      MatchNeedsOpen(s, open, k);
    }
    FindAllEmptyIff(s, open, 0);
  }

  /** Text without '{' and '#' holds no placeholder of either kind. */
  lemma FindNoBrace(s: string)
    requires '{' !in s && '#' !in s
    ensures FindAll(s, "{{", 0) == [] && FindAll(s, "#{{", 0) == []
  {
    NoRuneNoOccurs(s, "{{", 0, |s|);
    NoRuneNoOccurs(s, "#{{", 0, |s|);
    FindNone(s, "{{");
    FindNone(s, "#{{");
  }

  /** A string made only of the runes is stripped to nothing. */
  lemma {:induction false} StripCharsAll(s: string, chr: string)
    requires forall k :: 0 <= k < |s| ==> s[k] in chr
    ensures StripChars(s, chr) == ""
    decreases |s|
  {
    if |s| > 0 {
      StripCharsAll(s[1..], chr);
    }
  }

  /** Stripping a placeholder's delimiters leaves its expression, stripped. */
  lemma StripPlaceholder(open: string, e: string, chr: string)
    requires '}' in chr && forall k :: 0 <= k < |open| ==> open[k] in chr
    ensures StripChars(open + e + "}}", chr) == StripChars(e, chr)
  {
    StripCharsConcat(open + e, "}}", chr);
    StripCharsConcat(open, e, chr);
    StripCharsAll(open, chr);
    StripCharsAll("}}", chr);
  }

  /** The value a `{{e}}` placeholder without braces inside is replaced with. */
  lemma PlainValueOf(e: string)
    requires '{' !in e && '}' !in e
    ensures PlainValue("{{" + e + "}}") == "'||" + e + "||'"
  {
    StripPlaceholder("{{", e, "{}");
    StripCharsNone(e, "{}");
  }

  /** The value a `#{{e}}` placeholder is replaced with: `e` loses its '#',
      '{' and '}' runes. */
  lemma QuotedValueOf(e: string)
    ensures QuotedValue("#{{" + e + "}}") == "'''||" + StripChars(e, "#{}") + "||'''"
    ensures '{' !in StripChars(e, "#{}") && '#' !in StripChars(e, "#{}")
  {
    StripPlaceholder("#{{", e, "#{}");
    StripCharsSpec(e, "#{}");
  }

  /** A line the query rule expands: its indentation, the query marker when
      `marked`, then the statement. The rule is also chosen for an indented
      line without a marker. */
  function QueryLine(w: string, marked: bool, stmt: string): string {
    w + (if marked then "|> " else "") + stmt
  }

  /** Indentation and a statement without a marker of their own: dropping the
      markers removes exactly the one after the indentation, if any. */
  lemma LineUnmarked(w: string, marked: bool, stmt: string)
    requires Inert(w) && !Contains(stmt, "|> ")
    ensures ReplaceAll(QueryLine(w, marked, stmt), "|> ", "") == w + stmt
  {
    var t := "|> ";
    var m := if marked then t else "";
    var line := QueryLine(w, marked, stmt);
    assert line == w + (m + stmt);
    assert t[0] == '|';
    ReplaceAllSkip(w, m + stmt, t, "");
    assert ReplaceAll(line, t, "") == w + ReplaceAll(m + stmt, t, "");
    if marked {
      ReplaceAllLeading(t, stmt, "");
      assert "" + stmt == stmt;
    } else {
      assert m + stmt == stmt;
      ReplaceAllAbsent(stmt, t, "");
    }
    assert ReplaceAll(m + stmt, t, "") == stmt;
  }

  /** Inert text holds no query marker. */
  lemma InertUnmarked(s: string)
    requires Inert(s)
    ensures !Contains(s, "|> ")
  {
    NoRuneNoContains(s, "|> ");
  }

  /** Substituting one literal replaces its first occurrence. */
  lemma SubstituteOne(s: string, literal: string, quoted: bool)
    ensures Substitute(s, [literal], quoted) == ReplaceFirst(s, literal, Value(literal, quoted))
  {
    assert [literal][..0] == [];
  }

  /** The blank goes after the first quote when the text before it has none. */
  lemma QuoteSpaced(a: string, rest: string)
    requires '\'' !in a
    ensures ReplaceFirst(a + "'" + rest, "'", "' ") == a + "' " + rest
  {
    var s := a + "'" + rest;
    assert forall k :: 0 <= k < |a| ==> s[k] == a[k];
    ReplaceFirstAt(s, "'", |a|, "' ");
    assert s[..|a|] == a && s[|a| + 1..] == rest;
  }

  /** One pass over `a + literal + b`, where the literal does not start
      inside `a`, replaces the occurrence after `a` with the value. */
  lemma SubstitutedAt(a: string, literal: string, b: string, quoted: bool)
    requires forall k :: 0 <= k < |a| ==> !OccursAt(a + literal + b, literal, k)
    ensures Substitute(a + literal + b, [literal], quoted) == a + Value(literal, quoted) + b
  {
    var s := a + literal + b;
    SubstituteOne(s, literal, quoted);
    assert s[|a|..|a| + |literal|] == literal;
    ReplaceFirstFirst(s, literal, |a|, Value(literal, quoted));
    assert s[..|a|] == a && s[|a| + |literal|..] == b;
  }

  /** A pass for a literal that starts with '{' leaves text without '{' as it is. */
  lemma SubstituteAbsent(s: string, literal: string, quoted: bool)
    requires |literal| > 0 && literal[0] == '{' && '{' !in s
    ensures ReplaceFirst(s, literal, Value(literal, quoted)) == s
  {
    NoRuneNoContains(s, literal);
    ReplaceFirstAbsent(s, literal, Value(literal, quoted));
  }

  // ----- one `{{e}}` placeholder -----

  /** The line `w|> a{{e}}b`, or `wa{{e}}b`, once the marker is gone. */
  lemma PlainUnmarked(w: string, marked: bool, a: string, e: string, b: string)
    requires Inert(w) && Inert(a) && PlaceholderBody(e) && Inert(b)
    ensures ReplaceAll(QueryLine(w, marked, a + "{{" + e + "}}" + b), "|> ", "") ==
            w + a + "{{" + e + "}}" + b
  {
    InertUnmarked(a);
    InertUnmarked(b);
    NoContainsAround(a, "{{", e, "|> ");
    NoContainsAround(a + "{{" + e, "}}", b, "|> ");
    LineUnmarked(w, marked, a + "{{" + e + "}}" + b);
    PlainLineShape(w, a, e, b);
  }

  /** `a{{e}}b` holds no '#' before a '{'. */
  lemma PlainNeverHashBrace(a: string, e: string, b: string)
    requires Inert(a) && PlaceholderBody(e) && Inert(b)
    ensures NeverFollows(a + "{{" + e + "}}" + b, '#', '{')
  {
    NeverFollowsConcat(a, "{{", '#', '{');
    NeverFollowsConcat(a + "{{", e, '#', '{');
    NeverFollowsConcat(a + "{{" + e, "}}", '#', '{');
    NeverFollowsConcat(a + "{{" + e + "}}", b, '#', '{');
  }

  /** The two searches over `a{{e}}b`. */
  lemma PlainFound(a: string, e: string, b: string)
    requires Inert(a) && PlaceholderBody(e) && Inert(b)
    ensures var s := a + "{{" + e + "}}" + b;
            FindAll(s, "{{", 0) == ["{{" + e + "}}"] && FindAll(s, "#{{", 0) == []
  {
    var lit := "{{" + e + "}}";
    var s := a + "{{" + e + "}}" + b;
    PlainShape(a, e, b);
    NoRuneNoOccurs(a + (lit + b), "{{", 0, |a|);
    FindPast(a, lit + b, "{{");
    FindLeading("{{", e, b);
    FindNoBrace(b);
    PlainNeverHashBrace(a, e, b);
    PairNoOccurs(s, "", "#{{");
    EmptyTail(s);
    FindNone(s, "#{{");
  }

  /** The plain pass over `a{{e}}b`. */
  lemma PlainSubstituted(a: string, e: string, b: string)
    requires Inert(a) && PlaceholderBody(e) && Inert(b)
    ensures Substitute(a + "{{" + e + "}}" + b, ["{{" + e + "}}"], false) ==
            a + "'" + ("||" + e + "||'" + b)
  {
    var lit := "{{" + e + "}}";
    PlainShape(a, e, b);
    NoRuneNoOccurs(a + lit + b, lit, 0, |a|);
    SubstitutedAt(a, lit, b, false);
    PlainValueOf(e);
    PlainValueShape(a, e, b);
  }

  /** A query line with one `{{e}}` placeholder: the marker goes, the
      placeholder becomes a string concatenation of `e`, and the blank lands
      after the first quote, which is the one the placeholder opened. */
  lemma QueryPlainPlaceholder(w: string, marked: bool, a: string, e: string, b: string)
    requires Inert(w) && Inert(a) && PlaceholderBody(e) && Inert(b)
    ensures QueryText(QueryLine(w, marked, a + "{{" + e + "}}" + b)) == w + a + "' ||" + e + "||'" + b
  {
    var wa := w + a;
    PlainUnmarked(w, marked, a, e, b);
    PlainFound(wa, e, b);
    PlainSubstituted(wa, e, b);
    QuoteSpaced(wa, "||" + e + "||'" + b);
    PlainValueShape(wa, e, b);
  }

  // ----- one `#{{e}}` placeholder -----

  /** The line `w|> a#{{e}}b`, or `wa#{{e}}b`, once the marker is gone. */
  lemma QuotedUnmarked(w: string, marked: bool, a: string, e: string, b: string)
    requires Inert(w) && Inert(a) && PlaceholderBody(e) && Inert(b)
    ensures ReplaceAll(QueryLine(w, marked, a + "#{{" + e + "}}" + b), "|> ", "") ==
            w + a + "#{{" + e + "}}" + b
  {
    InertUnmarked(a);
    InertUnmarked(b);
    NoContainsAround(a, "#{{", e, "|> ");
    NoContainsAround(a + "#{{" + e, "}}", b, "|> ");
    LineUnmarked(w, marked, a + "#{{" + e + "}}" + b);
    QuotedLineShape(w, a, e, b);
  }

  /** The two searches over `a#{{e}}b`: the plain one finds the placeholder
      without its '#'. */
  lemma QuotedFound(a: string, e: string, b: string)
    requires Inert(a) && PlaceholderBody(e) && Inert(b)
    ensures var s := a + "#{{" + e + "}}" + b;
            FindAll(s, "{{", 0) == ["{{" + e + "}}"] && FindAll(s, "#{{", 0) == ["#{{" + e + "}}"]
  {
    var lit := "{{" + e + "}}";
    var qlit := "#{{" + e + "}}";
    var s := a + "#{{" + e + "}}" + b;
    QuotedShape(a, e, b);
    NoRuneNoOccurs((a + "#") + (lit + b), "{{", 0, |a| + 1);
    FindPast(a + "#", lit + b, "{{");
    FindLeading("{{", e, b);
    NoRuneNoOccurs(a + (qlit + b), "#{{", 0, |a|);
    FindPast(a, qlit + b, "#{{");
    FindLeading("#{{", e, b);
    FindNoBrace(b);
  }

  /** The quoted pass over `a#{{e}}b`, and the plain pass after it, which finds
      no '{' left. */
  lemma QuotedSubstituted(a: string, e: string, b: string)
    requires Inert(a) && PlaceholderBody(e) && Inert(b)
    ensures var quoted := a + "'''||" + StripChars(e, "#{}") + "||'''" + b;
            Substitute(a + "#{{" + e + "}}" + b, ["#{{" + e + "}}"], true) == quoted &&
            Substitute(quoted, ["{{" + e + "}}"], false) == quoted
  {
    var qlit := "#{{" + e + "}}";
    var lit := "{{" + e + "}}";
    var clean := StripChars(e, "#{}");
    QuotedShape(a, e, b);
    NoRuneNoOccurs(a + qlit + b, qlit, 0, |a|);
    SubstitutedAt(a, qlit, b, true);
    QuotedValueOf(e);
    var quoted := a + "'''||" + clean + "||'''" + b;
    QuotedValueShape(a, clean, b);
    SubstituteOne(quoted, lit, false);
    SubstituteAbsent(quoted, lit, false);
  }

  /** A query line with one `#{{e}}` placeholder: it becomes a concatenation
      of `e` between tripled quotes, `e` losing its '#' runes; the plain pass
      then finds its `{{e}}` gone, and the blank lands after the first of the
      opening quotes. */
  lemma QueryQuotedPlaceholder(w: string, marked: bool, a: string, e: string, b: string)
    requires Inert(w) && Inert(a) && PlaceholderBody(e) && Inert(b)
    ensures QueryText(QueryLine(w, marked, a + "#{{" + e + "}}" + b)) ==
            w + a + "' ''||" + StripChars(e, "#{}") + "||'''" + b
  {
    var wa := w + a;
    var clean := StripChars(e, "#{}");
    var rest := "''||" + clean + "||'''" + b;
    QuotedUnmarked(w, marked, a, e, b);
    QuotedFound(wa, e, b);
    QuotedSubstituted(wa, e, b);
    QuotedValueShape(wa, clean, b);
    QuoteSpaced(wa, rest);
  }

  // ----- a `{{e1}}` placeholder, then a `#{{e2}}` placeholder -----

  /** The line `w|> a{{e1}}b#{{e2}}c`, or `wa{{e1}}b#{{e2}}c`, once the marker
      is gone. */
  lemma BothUnmarked(w: string, marked: bool, a: string, e1: string, b: string, e2: string, c: string)
    requires Inert(w) && Inert(a) && PlaceholderBody(e1) && Inert(b) && PlaceholderBody(e2) && Inert(c)
    ensures ReplaceAll(QueryLine(w, marked, a + "{{" + e1 + "}}" + b + "#{{" + e2 + "}}" + c), "|> ", "") ==
            w + a + "{{" + e1 + "}}" + b + "#{{" + e2 + "}}" + c
  {
    var stmt := a + "{{" + e1 + "}}" + b + "#{{" + e2 + "}}" + c;
    InertUnmarked(a);
    InertUnmarked(b);
    InertUnmarked(c);
    NoContainsAround(a, "{{", e1, "|> ");
    NoContainsAround(a + "{{" + e1, "}}", b, "|> ");
    NoContainsAround(a + "{{" + e1 + "}}" + b, "#{{", e2, "|> ");
    NoContainsAround(a + "{{" + e1 + "}}" + b + "#{{" + e2, "}}", c, "|> ");
    LineUnmarked(w, marked, stmt);
    BothLineShape(w, a, e1, b, e2, c);
  }

  /** The plain search over `a{{e1}}b#{{e2}}c` finds both placeholders, the
      second without its '#'. */
  lemma BothFoundPlain(a: string, e1: string, b: string, e2: string, c: string)
    requires Inert(a) && PlaceholderBody(e1) && Inert(b) && PlaceholderBody(e2) && Inert(c)
    ensures FindAll(a + "{{" + e1 + "}}" + b + "#{{" + e2 + "}}" + c, "{{", 0) ==
            ["{{" + e1 + "}}", "{{" + e2 + "}}"]
  {
    var lit1 := "{{" + e1 + "}}";
    var mid := (b + "#") + ("{{" + e2 + "}}" + c);
    BothShape(a, e1, b, e2, c);
    NoRuneNoOccurs(a + (lit1 + mid), "{{", 0, |a|);
    FindPast(a, lit1 + mid, "{{");
    FindLeading("{{", e1, mid);
    FoundAfterHash(b, e2, c);
    TwoFound("{{" + e1 + "}}", "{{" + e2 + "}}");
  }

  /** ... the second one after the '#' that the plain search passes over. */
  lemma FoundAfterHash(b: string, e2: string, c: string)
    requires Inert(b) && PlaceholderBody(e2) && Inert(c)
    ensures FindAll((b + "#") + ("{{" + e2 + "}}" + c), "{{", 0) == ["{{" + e2 + "}}"]
  {
    var tail := "{{" + e2 + "}}" + c;
    NoRuneNoOccurs((b + "#") + tail, "{{", 0, |b| + 1);
    FindPast(b + "#", tail, "{{");
    FindLeading("{{", e2, c);
    FindNoBrace(c);
  }

  /** The quoted search over `a{{e1}}b#{{e2}}c` finds only the second
      placeholder: no '#' in `e1` comes before a '{'. */
  lemma BothFoundQuoted(a: string, e1: string, b: string, e2: string, c: string)
    requires Inert(a) && PlaceholderBody(e1) && Inert(b) && PlaceholderBody(e2) && Inert(c)
    ensures FindAll(a + "{{" + e1 + "}}" + b + "#{{" + e2 + "}}" + c, "#{{", 0) ==
            ["#{{" + e2 + "}}"]
  {
    var x := a + "{{" + e1 + "}}" + b;
    var qlit := "#{{" + e2 + "}}";
    BothShape(a, e1, b, e2, c);
    PlainNeverHashBrace(a, e1, b);
    PairNoOccurs(x, qlit + c, "#{{");
    FindPast(x, qlit + c, "#{{");
    FindLeading("#{{", e2, c);
    FindNoBrace(c);
  }

  /** The quoted pass over `a{{e1}}b#{{e2}}c` rewrites the second placeholder;
      the first is left for the plain pass. */
  lemma BothQuotedPass(a: string, e1: string, b: string, e2: string, c: string)
    requires Inert(a) && PlaceholderBody(e1) && Inert(b) && PlaceholderBody(e2) && Inert(c)
    ensures Substitute(a + "{{" + e1 + "}}" + b + "#{{" + e2 + "}}" + c, ["#{{" + e2 + "}}"], true) ==
            a + "{{" + e1 + "}}" + b + "'''||" + StripChars(e2, "#{}") + "||'''" + c
  {
    var x := a + "{{" + e1 + "}}" + b;
    var qlit := "#{{" + e2 + "}}";
    BothShape(a, e1, b, e2, c);
    PlainNeverHashBrace(a, e1, b);
    PairNoOccurs(x, qlit + c, qlit);
    SubstitutedAt(x, qlit, c, true);
    QuotedValueOf(e2);
    QuotedValueShape(x, StripChars(e2, "#{}"), c);
  }

  /** The plain pass then rewrites the first placeholder and finds the second
      one's `{{e2}}` gone. */
  lemma BothPlainPass(a: string, e1: string, b: string, e2: string, c: string)
    requires Inert(a) && PlaceholderBody(e1) && Inert(b) && PlaceholderBody(e2) && Inert(c)
    ensures var clean := StripChars(e2, "#{}");
            Substitute(a + "{{" + e1 + "}}" + b + "'''||" + clean + "||'''" + c,
                       ["{{" + e1 + "}}", "{{" + e2 + "}}"], false) ==
            a + "'||" + e1 + "||'" + b + "'''||" + clean + "||'''" + c
  {
    var clean := StripChars(e2, "#{}");
    var lit1 := "{{" + e1 + "}}";
    var lit2 := "{{" + e2 + "}}";
    var y := b + "'''||" + clean + "||'''" + c;
    BothQuotedShape(a, e1, b, clean, c);
    assert [lit1, lit2][..1] == [lit1];
    NoRuneNoOccurs(a + lit1 + y, lit1, 0, |a|);
    SubstitutedAt(a, lit1, y, false);
    PlainValueOf(e1);
    QuotedValueOf(e2);
    var plain := a + "'||" + e1 + "||'" + y;
    BothPlainNoBrace(a, e1, b, clean, c);
    SubstituteAbsent(plain, lit2, false);
    BothPlainShape(a, e1, b, clean, c);
  }

  /** A query line with a `{{e1}}` placeholder and then a `#{{e2}}` one: each
      becomes its concatenation, and the blank lands after the quote the
      first one opened. */
  lemma QueryBothPlaceholders(w: string, marked: bool, a: string, e1: string, b: string, e2: string, c: string)
    requires Inert(w) && Inert(a) && PlaceholderBody(e1) && Inert(b) && PlaceholderBody(e2) && Inert(c)
    ensures QueryText(QueryLine(w, marked, a + "{{" + e1 + "}}" + b + "#{{" + e2 + "}}" + c)) ==
            w + a + "' ||" + e1 + "||'" + b + "'''||" + StripChars(e2, "#{}") + "||'''" + c
  {
    var wa := w + a;
    var clean := StripChars(e2, "#{}");
    var y := b + "'''||" + clean + "||'''" + c;
    var rest := "||" + e1 + "||'" + y;
    BothUnmarked(w, marked, a, e1, b, e2, c);
    BothFoundPlain(wa, e1, b, e2, c);
    BothFoundQuoted(wa, e1, b, e2, c);
    BothQuotedPass(wa, e1, b, e2, c);
    BothPlainPass(wa, e1, b, e2, c);
    BothPlainShape(wa, e1, b, clean, c);
    QuoteSpaced(wa, rest);
  }

  // ----- regroupings of the texts above -----
  // These only re-associate concatenations and say nothing of their own about
  // the engine. They are separate lemmas so that each proof above sees the
  // one regrouping it needs rather than a large equation of sequences.

  lemma TwoFound(x: string, y: string)
    ensures [x] + [y] == [x, y]
  {
  }

  lemma EmptyTail(s: string)
    ensures s + "" == s
  {
  }

  lemma PlainLineShape(w: string, a: string, e: string, b: string)
    ensures w + (a + "{{" + e + "}}" + b) == w + a + "{{" + e + "}}" + b
  {
  }

  lemma PlainShape(a: string, e: string, b: string)
    ensures a + "{{" + e + "}}" + b == a + ("{{" + e + "}}" + b)
    ensures a + "{{" + e + "}}" + b == a + ("{{" + e + "}}") + b
  {
  }

  lemma PlainValueShape(a: string, e: string, b: string)
    ensures a + ("'||" + e + "||'") + b == a + "'" + ("||" + e + "||'" + b)
    ensures a + "' " + ("||" + e + "||'" + b) == a + "' ||" + e + "||'" + b
  {
  }

  lemma QuotedLineShape(w: string, a: string, e: string, b: string)
    ensures w + (a + "#{{" + e + "}}" + b) == w + a + "#{{" + e + "}}" + b
  {
  }

  lemma QuotedShape(a: string, e: string, b: string)
    ensures a + "#{{" + e + "}}" + b == (a + "#") + ("{{" + e + "}}" + b)
    ensures a + "#{{" + e + "}}" + b == a + ("#{{" + e + "}}" + b)
    ensures a + "#{{" + e + "}}" + b == a + ("#{{" + e + "}}") + b
  {
  }

  lemma QuotedValueShape(a: string, clean: string, b: string)
    ensures a + ("'''||" + clean + "||'''") + b == a + "'''||" + clean + "||'''" + b
    ensures a + "'''||" + clean + "||'''" + b == a + "'" + ("''||" + clean + "||'''" + b)
    ensures a + "' " + ("''||" + clean + "||'''" + b) == a + "' ''||" + clean + "||'''" + b
  {
  }

  lemma BothLineShape(w: string, a: string, e1: string, b: string, e2: string, c: string)
    ensures w + (a + "{{" + e1 + "}}" + b + "#{{" + e2 + "}}" + c) ==
            w + a + "{{" + e1 + "}}" + b + "#{{" + e2 + "}}" + c
  {
  }

  lemma BothShape(a: string, e1: string, b: string, e2: string, c: string)
    ensures var s := a + "{{" + e1 + "}}" + b + "#{{" + e2 + "}}" + c;
            s == a + ("{{" + e1 + "}}" + ((b + "#") + ("{{" + e2 + "}}" + c))) &&
            s == (a + "{{" + e1 + "}}" + b) + ("#{{" + e2 + "}}" + c) &&
            s == (a + "{{" + e1 + "}}" + b) + ("#{{" + e2 + "}}") + c
  {
  }

  lemma BothQuotedShape(a: string, e1: string, b: string, clean: string, c: string)
    ensures var y := b + "'''||" + clean + "||'''" + c;
            a + "{{" + e1 + "}}" + b + "'''||" + clean + "||'''" + c == a + ("{{" + e1 + "}}") + y &&
            a + ("'||" + e1 + "||'") + y == a + "'||" + e1 + "||'" + y
  {
  }

  lemma BothPlainShape(a: string, e1: string, b: string, clean: string, c: string)
    ensures var y := b + "'''||" + clean + "||'''" + c;
            var rest := "||" + e1 + "||'" + y;
            a + "'||" + e1 + "||'" + y == a + "'||" + e1 + "||'" + b + "'''||" + clean + "||'''" + c &&
            a + "'||" + e1 + "||'" + y == a + "'" + rest &&
            a + "' " + rest == a + "' ||" + e1 + "||'" + b + "'''||" + clean + "||'''" + c
  {
  }

  lemma BothPlainNoBrace(a: string, e1: string, b: string, clean: string, c: string)
    requires '{' !in a && '{' !in e1 && '{' !in b && '{' !in clean && '{' !in c
    ensures '{' !in a + "'||" + e1 + "||'" + (b + "'''||" + clean + "||'''" + c)
  {
  }
}
