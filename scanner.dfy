/** The line-granularity source model: one node per source line, carrying the
    namespace of its file, its 1-based position, its raw text and the text the
    expansion pass emits for it; the line classifiers; and the numbering of a
    file's lines into nodes. */
module Scanner {
  import opened GoStrings
  import opened Token

  /** Only files with this extension are loaded. */
  const SqlExtension: string := ".sql"

  /** The regular-expression class `\s` of Go's RE2 syntax: tab, newline, form
      feed, carriage return and space (vertical tab is not in it). */
  const PerlSpace: set<char> := {'\t', '\n', '\U{C}', '\r', ' '}

  /** Where a node comes from: the namespace is the file's base name without its
      extension. */
  datatype FileInfo = FileInfo(namespace: string, fileName: string, location: string)

  /** One source line. Only `source` is written after the node is built, so the
      other fields are constants and reading them needs no frame. */
  class Ast {
    const info: FileInfo
    const position: int
    const raw: string
    var source: string

    constructor (info: FileInfo, position: int, raw: string, source: string)
      ensures this.info == info && this.position == position
      ensures this.raw == raw && this.source == source
    {
      this.info := info;
      this.position := position;
      this.raw := raw;
      this.source := source;
    }

    /** The position in decimal, as the diagnostics print it. */
    function Line(): string {
      Itoa(position)
    }

    function Text(): string {
      raw
    }

    /** Each marker is matched as a regular expression; the markers "func!",
        "func", "proc!", "proc", "exec!" and "--" hold no special character, so
        they match exactly where they occur as text. */
    predicate IsImFunc() {
      Contains(Text(), String(IMFUNC))
    }

    predicate IsFunc() {
      Contains(Text(), String(FUNC))
    }

    predicate IsImProc() {
      Contains(Text(), String(IMPROC))
    }

    predicate IsProc() {
      Contains(Text(), String(PROC))
    }

    predicate IsExec() {
      Contains(Text(), String(EXEC))
    }

    /** The marker "|>" read as a regular expression is the alternation of the
        empty pattern and ">". */
    predicate IsQuery() {
      Contains(Text(), "") || Contains(Text(), ">")
    }

    predicate IsComment() {
      Contains(Text(), String(COMMENT))
    }

    /** Nothing is left once white space is trimmed off both ends. */
    predicate IsEmpty() {
      TrimSpace(Text()) == ""
    }

    predicate IsNewLine() {
      Text() == "\n"
    }

    /** The regular expression `^\s`: the first rune is in Go's `\s` class. */
    predicate IsWhiteSpace() {
      |Text()| > 0 && Text()[0] in PerlSpace
    }
  }

  /** A line is empty exactly when every rune of it is white space. */
  lemma IsEmptyIff(n: Ast)
    ensures n.IsEmpty() <==> forall k :: 0 <= k < |n.raw| ==> n.raw[k] in UnicodeSpace
  {
    TrimEmptyIff(n.raw, UnicodeSpace);
  }

  /** A line holding only a newline is empty, and a whitespace-led line starts
      with a rune that trimming would remove. */
  lemma WhiteSpaceClasses(n: Ast)
    ensures n.IsNewLine() ==> n.IsEmpty()
    ensures n.IsWhiteSpace() ==> n.raw[0] in UnicodeSpace
  {
    IsEmptyIff(n);
  }

  /** The immutable markers contain the plain ones, so an immutable opener also
      classifies as the plain opener. */
  lemma ImmutableImpliesPlain(n: Ast)
    ensures n.IsImFunc() ==> n.IsFunc()
    ensures n.IsImProc() ==> n.IsProc()
  {
    assert Contains("func!", "func");
    assert Contains("proc!", "proc");
    if n.IsImFunc() {
      ContainsTransitive(n.raw, "func!", "func");
    }
    if n.IsImProc() {
      ContainsTransitive(n.raw, "proc!", "proc");
    }
  }

  /** The query pattern matches every line. */
  lemma IsQueryAlways(n: Ast)
    ensures n.IsQuery()
  {
  }

  /** The classifiers look at the raw text and nothing else. */
  lemma ClassifiersReadOnlyText(a: Ast, b: Ast)
    requires a.Text() == b.Text()
    ensures a.IsImFunc() == b.IsImFunc() && a.IsFunc() == b.IsFunc()
    ensures a.IsImProc() == b.IsImProc() && a.IsProc() == b.IsProc()
    ensures a.IsExec() == b.IsExec() && a.IsQuery() == b.IsQuery()
    ensures a.IsComment() == b.IsComment() && a.IsEmpty() == b.IsEmpty()
    ensures a.IsNewLine() == b.IsNewLine() && a.IsWhiteSpace() == b.IsWhiteSpace()
  {
  }

  /** EmptyAstNode: the node that stands for the end of the input. */
  method EmptyAstNode() returns (a: Ast)
    ensures fresh(a)
    ensures a.info == FileInfo("", "", "") && a.position == 0
    ensures a.raw == "" && a.source == "" && a.IsEmpty()
  {
    a := new Ast(FileInfo("", "", ""), 0, "", "");
  }

  /** filepath.Ext: the suffix from the last '.' of the last path element, or "". */
  function Ext(path: string): string
    decreases |path|
  {
    if |path| == 0 then ""
    else
      var c := path[|path| - 1];
      if c == '/' then ""
      else if c == '.' then "."
      else
        var e := Ext(path[..|path| - 1]);
        if e == "" then "" else e + [c]
  }

  /** A non-empty extension is a suffix that starts with '.' and has no other '.'. */
  lemma {:induction false} ExtIsSuffix(path: string)
    ensures var e := Ext(path);
            e == "" || (e[0] == '.' && HasSuffix(path, e) &&
                        forall k :: 0 < k < |e| ==> e[k] != '.' && e[k] != '/')
    decreases |path|
  {
    if |path| > 0 && path[|path| - 1] != '/' && path[|path| - 1] != '.' {
      var p := path[..|path| - 1];
      ExtIsSuffix(p);
      var e := Ext(p);
      if e != "" {
        assert path[|path| - |e| - 1..] == p[|p| - |e|..] + [path[|path| - 1]];
      }
    }
  }

  /** Ext reads the path from its end, one rune at a time. */
  lemma ExtStep(p: string, c: char)
    ensures Ext(p + [c]) ==
              if c == '/' then ""
              else if c == '.' then "."
              else if Ext(p) == "" then ""
              else Ext(p) + [c]
  {
    assert (p + [c])[..|p|] == p;
  }

  /** The extension is ".sql" exactly when the name ends with ".sql". */
  lemma ExtIsSql(name: string)
    ensures Ext(name) == SqlExtension <==> HasSuffix(name, SqlExtension)
  {
    ExtIsSuffix(name);
    if HasSuffix(name, SqlExtension) {
      var q := name[..|name| - 4];
      assert name == q + ['.'] + ['s'] + ['q'] + ['l'];
      ExtStep(q, '.');
      ExtStep(q + ['.'], 's');
      ExtStep(q + ['.'] + ['s'], 'q');
      ExtStep(q + ['.'] + ['s'] + ['q'], 'l');
    }
  }

  /** No node occurs twice. */
  ghost predicate Distinct(nodes: seq<Ast>) {
    forall i, j :: 0 <= i < j < |nodes| ==> nodes[i] != nodes[j]
  }

  /** The loader: an ordered buffer of nodes across all loaded files. */
  class Scanner {
    const path: string
    var buffer: seq<Ast>

    ghost predicate Valid()
      reads this
    {
      Distinct(buffer)
    }

    constructor (path: string)
      ensures Valid() && this.path == path && buffer == []
    {
      this.path := path;
      buffer := [];
    }

    /** The part of findSQLFiles that does not touch the file system: a file
        named `name` at `location` whose lines are `lines` appends one fresh node
        per line when its extension is ".sql", numbered from 1, in the namespace
        given by the name without the extension, with nothing emitted yet. */
    method FindSQLFiles(name: string, location: string, lines: seq<string>)
      requires Valid()
      modifies this
      ensures Valid()
      ensures Ext(name) != SqlExtension ==> buffer == old(buffer)
      ensures Ext(name) == SqlExtension ==>
                |buffer| == |old(buffer)| + |lines| && buffer[..|old(buffer)|] == old(buffer)
      ensures Ext(name) == SqlExtension ==>
                forall i :: |old(buffer)| <= i < |buffer| ==>
                  fresh(buffer[i]) &&
                  Numbered(buffer[i], FileInfo(TrimSuffix(name, SqlExtension), name, location),
                           i - |old(buffer)| + 1, lines[i - |old(buffer)|])
    {
      if Ext(name) == SqlExtension {
        var namespace := TrimSuffix(name, Ext(name));
        var start := |buffer|;
        var line := 1;
        while line <= |lines|
          invariant 1 <= line <= |lines| + 1
          invariant Distinct(buffer)
          invariant |buffer| == start + line - 1 && buffer[..start] == old(buffer)
          invariant forall i :: start <= i < |buffer| ==>
                      fresh(buffer[i]) &&
                      Numbered(buffer[i], FileInfo(namespace, name, location), i - start + 1, lines[i - start])
        {
          var fileInfo := FileInfo(namespace, name, location);
          var node := new Ast(fileInfo, line, lines[line - 1], "");
          buffer := buffer + [node];
          line := line + 1;
        }
      }
    }
  }

  /** Node `n` holds line number `position` of a file, with text `line`, and has
      emitted nothing yet. */
  predicate Numbered(n: Ast, info: FileInfo, position: int, line: string)
    reads n
  {
    n.info == info && n.position == position && n.raw == line && n.source == ""
  }
}
