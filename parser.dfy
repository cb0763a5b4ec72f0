/** The expansion pass. A single forward pass over the loaded nodes keeps the
    current namespace and the current block state; for each node it first emits
    a schema header when the namespace changes, then picks the first matching
    rule of an ordered list and writes the node's emitted text. A block still
    open at the end is closed by one extra node.

    The first half states the pass as functions of the node sequence (which
    rule each node gets, the state after each prefix, the text each node
    emits, the opener/closer events); the second half is the `Parser` object
    whose methods update its fields and the nodes in place, proved against
    those functions. */
module Parser {
  import opened GoStrings
  import opened Token
  import opened Scanner
  import opened Macros

  /** The states in which a block is open. */
  const BlockStates: set<Token> := {FUNC, IMFUNC, PROC, IMPROC}

  /** The states the pass can be in. */
  const PassStates: set<Token> := {START, FUNC, IMFUNC, PROC, IMPROC}

  /** The cases of the switch in Compile, in their order. `Keep` is the
      fall-through when no case matches. */
  datatype Rule =
    | Skip        // an empty line
    | Close       // a line not led by white space while a block is open
    | OpenImFunc | OpenFunc | OpenImProc | OpenProc
    | Exec        // an exec line inside an immutable procedure
    | Query       // any other line inside an immutable procedure
    | Scope       // the scope macro, chosen by the two scope patterns
    | Default     // the passthrough with an origin comment
    | Keep        // a line holding just a newline

  predicate IsOpener(r: Rule) {
    r.OpenImFunc? || r.OpenFunc? || r.OpenImProc? || r.OpenProc?
  }

  /** The first case of the switch that matches node `n` in `state`. */
  function Choose(state: Token, n: Ast): Rule {
    if n.IsEmpty() then Skip
    else if !n.IsWhiteSpace() && state != START then Close
    else if state == START && n.IsImFunc() then OpenImFunc
    else if state == START && n.IsFunc() then OpenFunc
    else if state == START && n.IsImProc() then OpenImProc
    else if state == START && n.IsProc() then OpenProc
    else if state == IMPROC && n.IsExec() then Exec
    else if state == IMPROC && n.IsQuery() then Query
    else if !n.IsNewLine() then
      if SlashPatternMatches(n.Text()) || SqlPatternMatches(n.Text()) then Scope else Default
    else Keep
  }

  /** The block state after a rule: a closer returns to START, an opener enters
      its block, every other rule leaves the state alone. */
  function NextState(state: Token, r: Rule): Token {
    match r
    case Close => START
    case OpenImFunc => IMFUNC
    case OpenFunc => FUNC
    case OpenImProc => IMPROC
    case OpenProc => PROC
    case _ => state
  }

  /** The text rule `r` gives node `n`, where `prior` is the node's text after
      the schema step. The namespace of the function name is the node's own,
      which the schema step has just made current. */
  function RuleText(r: Rule, state: Token, n: Ast, prior: string): string {
    match r
    case Skip => prior
    case Close => CloseText(state, prior)
    case OpenImFunc => OpenerText(String(IMFUNC), n.info.namespace, n.raw, FunctionLanguage)
    case OpenFunc => OpenerText(String(FUNC), n.info.namespace, n.raw, FunctionLanguage)
    case OpenImProc => OpenerText(String(IMPROC), n.info.namespace, n.raw, ProcedureLanguage)
    case OpenProc => OpenerText(String(PROC), n.info.namespace, n.raw, ProcedureLanguage)
    case Exec => ExecText(n.raw)
    case Query => QueryText(n.raw)
    case Scope => ScopeText(n.info.namespace, n.raw)
    case Default => DefaultText(n.raw, n.info.namespace, n.position)
    case Keep => prior
  }

  /** The two fields the pass carries from node to node. */
  datatype PassState = PassState(namespace: string, state: Token)

  /** The text node `n` ends up with when the pass reaches it in `s`, given
      the text `source` it had before. */
  function Emit(s: PassState, n: Ast, source: string): string {
    var prior := if s.namespace != n.info.namespace then SchemaHeader(n.info.namespace) else source;
    RuleText(Choose(s.state, n), s.state, n, prior)
  }

  /** The fields after node `n`: the namespace is the node's, the state follows
      the chosen rule. */
  function Step(s: PassState, n: Ast): PassState {
    PassState(n.info.namespace, NextState(s.state, Choose(s.state, n)))
  }

  /** The fields after the pass has visited `nodes` in order. */
  function Run(s: PassState, nodes: seq<Ast>): PassState
    decreases |nodes|
  {
    if |nodes| == 0 then s else Step(Run(s, nodes[..|nodes| - 1]), nodes[|nodes| - 1])
  }

  // ---------------------------------------------------------------------------
  // Properties of single steps.

  /** Openers fire only in START and closers only outside it; the
      fall-through and the scope macro are never chosen. */
  lemma ChooseGuards(state: Token, n: Ast)
    ensures IsOpener(Choose(state, n)) ==> state == START
    ensures Choose(state, n).Close? ==> state != START
    ensures Choose(state, n) != Keep && Choose(state, n) != Scope
  {
    WhiteSpaceClasses(n);
    ScopePatternsNeverMatch(n.Text());
  }

  /** The pass never leaves its five states. */
  lemma StepStaysInPassStates(s: PassState, n: Ast)
    requires s.state in PassStates
    ensures Step(s, n).state in PassStates
    ensures Step(s, n).namespace == n.info.namespace
  {
  }

  /** A non-empty line not led by white space, met inside a block, is not
      tried as an opener: it emits the block's closer alone, dropping its own
      text and any schema header, and the state returns to START. */
  lemma CloseLine(s: PassState, n: Ast, source: string)
    requires s.state in BlockStates && !n.IsEmpty() && !n.IsWhiteSpace()
    ensures Choose(s.state, n) == Close && Step(s, n).state == START
    ensures Emit(s, n, source) == CloseText(s.state, "")
    ensures s.state == FUNC ==> Emit(s, n, source) == "$$ IMMUTABLE; \n"
    ensures s.state == IMFUNC ==> Emit(s, n, source) == "$$ ; \n"
    ensures s.state == PROC ==> Emit(s, n, source) == "END; $$ IMMUTABLE; \n"
    ensures s.state == IMPROC ==> Emit(s, n, source) == "END; $$ ; \n"
  {
    ClosersDistinct(s.state, s.state, "");
  }

  /** The schema header is the text of an empty node at a namespace change;
      every other case overwrites the node's text, so on a non-empty node
      neither the header nor the earlier text survives. */
  lemma HeaderSurvivesOnlyOnEmpty(s: PassState, n: Ast, source: string, other: string, namespace: string)
    requires s.state in PassStates
    ensures n.IsEmpty() ==>
              Emit(s, n, source) == if s.namespace != n.info.namespace then SchemaHeader(n.info.namespace) else source
    ensures !n.IsEmpty() ==> Emit(s, n, source) == Emit(PassState(namespace, s.state), n, other)
  {
    ChooseGuards(s.state, n);
  }

  /** An opener line in START emits the qualified header and the language
      clause of its kind, and enters that block. */
  lemma OpenLine(s: PassState, n: Ast, source: string)
    requires s.state == START && !n.IsEmpty() && (n.IsFunc() || n.IsProc())
    ensures IsOpener(Choose(s.state, n))
    ensures var k := Step(s, n).state;
            k in BlockStates &&
            Emit(s, n, source) ==
              OpenerText(String(k), n.info.namespace, n.raw,
                         if k == FUNC || k == IMFUNC then FunctionLanguage else ProcedureLanguage)
    ensures Step(s, n).state == IMFUNC <==> n.IsImFunc()
    ensures Step(s, n).state == FUNC <==> !n.IsImFunc() && n.IsFunc()
  {
  }

  /** Inside an immutable procedure every non-empty line led by white space is
      rewritten by the exec macro when it has an exec marker and by the query
      macro otherwise, and the block stays open. */
  lemma ImProcBodyLine(s: PassState, n: Ast, source: string)
    requires s.state == IMPROC && !n.IsEmpty() && n.IsWhiteSpace()
    ensures Step(s, n).state == IMPROC
    ensures n.IsExec() ==> Emit(s, n, source) == ExecText(n.raw)
    ensures !n.IsExec() ==> Emit(s, n, source) == QueryText(n.raw)
  {
    IsQueryAlways(n);
  }

  /** The last case: a non-empty line gets the passthrough with its origin
      comment exactly when it opens nothing in START, or is led by white space
      inside a block other than an immutable procedure. */
  lemma DefaultLine(s: PassState, n: Ast, source: string)
    requires s.state in PassStates && !n.IsEmpty()
    ensures Choose(s.state, n) == Default <==>
              (s.state == START && !n.IsFunc() && !n.IsProc()) ||
              (s.state in {FUNC, IMFUNC, PROC} && n.IsWhiteSpace())
    ensures Choose(s.state, n) == Default ==>
              Emit(s, n, source) == DefaultText(n.raw, n.info.namespace, n.position) &&
              Step(s, n).state == s.state
  {
    ImmutableImpliesPlain(n);
    ChooseGuards(s.state, n);
  }

  // ---------------------------------------------------------------------------
  // Properties of the whole pass.

  /** After a non-empty prefix the current namespace is that of its last node,
      so a node sees a namespace change exactly when its namespace differs from
      the one before it (or, for the first node, from the initial one). */
  lemma {:induction false} NamespaceChange(s: PassState, nodes: seq<Ast>, i: nat)
    requires i < |nodes|
    ensures Run(s, nodes[..i]).namespace ==
              if i == 0 then s.namespace else nodes[i - 1].info.namespace
  {
    if i > 0 {
      assert nodes[..i][..i - 1] == nodes[..i - 1];
    }
  }

  /** Run over a prefix extended by one node. */
  lemma RunSnoc(s: PassState, nodes: seq<Ast>, i: nat)
    requires i < |nodes|
    ensures Run(s, nodes[..i + 1]) == Step(Run(s, nodes[..i]), nodes[i])
  {
    assert nodes[..i + 1][..i] == nodes[..i];
  }

  /** The fields before each node and after the last. */
  function States(s: PassState, nodes: seq<Ast>): seq<PassState>
    decreases |nodes|
  {
    if |nodes| == 0 then [s] else States(s, nodes[..|nodes| - 1]) + [Run(s, nodes)]
  }

  lemma {:induction false} StatesAt(s: PassState, nodes: seq<Ast>, i: nat)
    requires i <= |nodes|
    ensures |States(s, nodes)| == |nodes| + 1
    ensures States(s, nodes)[i] == Run(s, nodes[..i])
    decreases |nodes|
  {
    if |nodes| > 0 {
      var k := |nodes| - 1;
      StatesAt(s, nodes[..k], if i < k then i else 0);
      if i < k {
        assert nodes[..k][..i] == nodes[..i];
      } else if i == k {
        StatesAt(s, nodes[..k], k);
        assert nodes[..k][..k] == nodes[..k];
      } else {
        assert nodes[..i] == nodes;
      }
    }
  }

  /** The pass, started in one of its states, stays in them. */
  lemma {:induction false} RunStaysInPassStates(s: PassState, nodes: seq<Ast>)
    requires s.state in PassStates
    ensures Run(s, nodes).state in PassStates
    decreases |nodes|
  {
    if |nodes| > 0 {
      RunStaysInPassStates(s, nodes[..|nodes| - 1]);
      StepStaysInPassStates(Run(s, nodes[..|nodes| - 1]), nodes[|nodes| - 1]);
    }
  }

  /** What a node contributes to the block structure: an opener opens a block
      of its kind, a closer closes the block of the state it met. */
  datatype Event = Opened(kind: Token) | Closed(kind: Token)

  function EventOf(state: Token, r: Rule): seq<Event> {
    if r.Close? then [Closed(state)]
    else if IsOpener(r) then [Opened(NextState(state, r))]
    else []
  }

  /** The events of the pass over `nodes`, in order. */
  function Events(s: PassState, nodes: seq<Ast>): seq<Event>
    decreases |nodes|
  {
    if |nodes| == 0 then []
    else
      var p := Run(s, nodes[..|nodes| - 1]);
      var n := nodes[|nodes| - 1];
      Events(s, nodes[..|nodes| - 1]) + EventOf(p.state, Choose(p.state, n))
  }

  /** The events of the whole output: those of the pass, then the closer of
      the extra node when a block is still open at the end. */
  function Trace(s: PassState, nodes: seq<Ast>): seq<Event> {
    var last := Run(s, nodes).state;
    Events(s, nodes) + if last != START then [Closed(last)] else []
  }

  /** Opened and closed events alternate, starting with an opening, and each
      closing closes the kind just opened. */
  predicate Paired(e: seq<Event>)
    decreases |e|
  {
    |e| == 0 ||
    (|e| >= 2 && e[|e| - 2].Opened? && e[|e| - 2].kind in BlockStates &&
     e[|e| - 1] == Closed(e[|e| - 2].kind) && Paired(e[..|e| - 2]))
  }

  /** After any prefix of a pass started in START, the events are paired up
      when the state is START, and otherwise are paired up but for a last
      opening of the current block. */
  lemma {:induction false} EventsPaired(s: PassState, nodes: seq<Ast>)
    requires s.state == START
    ensures var r := Run(s, nodes);
            var e := Events(s, nodes);
            r.state in PassStates &&
            (r.state == START ==> Paired(e)) &&
            (r.state != START ==> |e| > 0 && e[|e| - 1] == Opened(r.state) && Paired(e[..|e| - 1]))
    decreases |nodes|
  {
    if |nodes| > 0 {
      var prefix := nodes[..|nodes| - 1];
      var n := nodes[|nodes| - 1];
      EventsPaired(s, prefix);
      var p := Run(s, prefix);
      var ep := Events(s, prefix);
      var r := Choose(p.state, n);
      ChooseGuards(p.state, n);
      var e := ep + EventOf(p.state, r);
      assert Events(s, nodes) == e;
      if r.Close? {
        assert e[..|e| - 2] == ep[..|ep| - 1];
      } else if IsOpener(r) {
        assert e[..|e| - 1] == ep;
      } else {
        assert e == ep;
      }
    }
  }

  /** Every block the pass opens is closed exactly once, by the closer of its
      own kind, counting the extra closing node. */
  lemma BlocksClosedOnce(s: PassState, nodes: seq<Ast>)
    requires s.state == START
    ensures Paired(Trace(s, nodes))
  {
    EventsPaired(s, nodes);
    var e := Events(s, nodes);
    var last := Run(s, nodes).state;
    if last != START {
      var t := e + [Closed(last)];
      assert t[|t| - 2] == Opened(last) && last in BlockStates;
      assert t[..|t| - 2] == e[..|e| - 1];
      assert Trace(s, nodes) == t;
    } else {
      assert Trace(s, nodes) == e;
    }
  }

  /** Every opener header starts with the same words. */
  lemma OpenerStartsCreate(marker: string, namespace: string, text: string, language: string)
    ensures IsPrefix("CREATE OR REPLACE ", OpenerText(marker, namespace, text, language))
  {
    var e := OpenerText(marker, namespace, text, language);
    assert e[..18] == "CREATE OR REPLACE ";
  }

  /** A node that opens a block emits an opener header. */
  lemma OpenedText(s: PassState, n: Ast, source: string)
    requires IsOpener(Choose(s.state, n))
    ensures NextState(s.state, Choose(s.state, n)) in BlockStates
    ensures IsPrefix("CREATE OR REPLACE ", Emit(s, n, source))
  {
    var r := Choose(s.state, n);
    var k := NextState(s.state, r);
    var language := if r.OpenImFunc? || r.OpenFunc? then FunctionLanguage else ProcedureLanguage;
    assert Emit(s, n, source) == OpenerText(String(k), n.info.namespace, n.raw, language);
    OpenerStartsCreate(String(k), n.info.namespace, n.raw, language);
  }

  /** A node that closes a block emits that block's fixed closer. */
  lemma ClosedText(s: PassState, n: Ast, source: string)
    requires s.state in PassStates && Choose(s.state, n).Close?
    ensures s.state in BlockStates
    ensures Emit(s, n, source) == CloseText(s.state, "")
  {
    ChooseGuards(s.state, n);
  }

  /** The events are what the nodes emit: an opening event comes from a node
      that emitted an opener header, a closing event from one that emitted the
      fixed closer of the block. */
  lemma EventText(s: PassState, n: Ast, source: string)
    requires s.state in PassStates
    ensures var ev := EventOf(s.state, Choose(s.state, n));
            (ev == [] || |ev| == 1) &&
            (|ev| == 1 && ev[0].Closed? ==>
               ev[0].kind in BlockStates && Emit(s, n, source) == CloseText(ev[0].kind, "")) &&
            (|ev| == 1 && ev[0].Opened? ==>
               ev[0].kind in BlockStates && IsPrefix("CREATE OR REPLACE ", Emit(s, n, source)))
  {
    var r := Choose(s.state, n);
    if r.Close? {
      ClosedText(s, n, source);
    } else if IsOpener(r) {
      OpenedText(s, n, source);
    }
  }

  // ---------------------------------------------------------------------------
  // The texts of the whole pass, and the output of Parse.

  /** The texts of a sequence of nodes. */
  function SourcesOf(nodes: seq<Ast>): seq<string>
    reads nodes
  {
    seq(|nodes|, j requires 0 <= j < |nodes| reads nodes => nodes[j].source)
  }

  /** Every text followed by a newline, in order. */
  function Joined(texts: seq<string>): string
    decreases |texts|
  {
    if |texts| == 0 then "" else Joined(texts[..|texts| - 1]) + texts[|texts| - 1] + "\n"
  }

  /** Text `i` sits in the output right after the texts before it, and is
      followed by a newline and the texts of the rest. */
  lemma {:induction false} JoinedAt(texts: seq<string>, i: nat)
    requires i < |texts|
    ensures Joined(texts) == Joined(texts[..i]) + texts[i] + "\n" + Joined(texts[i + 1..])
    decreases |texts|
  {
    var k := |texts| - 1;
    if i == k {
      assert texts[i + 1..] == [];
      assert texts[..k] == texts[..i];
    } else {
      var init := texts[..k];
      JoinedAt(init, i);
      assert init[..i] == texts[..i];
      assert init[i + 1..] == texts[i + 1..k];
      assert texts[i + 1..][..|texts[i + 1..]| - 1] == texts[i + 1..k];
      assert texts[i + 1..][|texts[i + 1..]| - 1] == texts[k];
    }
  }

  /** A node that holds the closer of `state` and came from no file. */
  ghost predicate ClosingNode(n: Ast, state: Token)
    reads n
  {
    n.info == FileInfo("", "", "") && n.position == 0 && n.raw == "" && n.source == CloseText(state, "")
  }

  // ---------------------------------------------------------------------------
  // The parser object.

  class Parser {
    var currentNamespace: string
    var currentState: Token
    const scanner: Scanner

    /** SQLParser: a parser in START, with no namespace yet and an empty loader
        for `path`. */
    constructor (path: string)
      ensures currentState == START && currentNamespace == ""
      ensures fresh(scanner) && scanner.path == path && scanner.buffer == [] && scanner.Valid()
    {
      currentNamespace := "";
      currentState := START;
      scanner := new Scanner(path);
    }

    predicate State(s: Token)
      reads this
    {
      currentState == s
    }

    /** The fields as a pass state. */
    function Fields(): PassState
      reads this
    {
      PassState(currentNamespace, currentState)
    }

    /** CreateSchemaDefinition: at a namespace change the node gets the schema
        header and the namespace becomes current; otherwise nothing changes.
        (The length test in the condition is never true.) */
    method CreateSchemaDefinition(node: Ast)
      modifies this, node
      ensures currentNamespace == node.info.namespace && currentState == old(currentState)
      ensures node.source ==
                if old(currentNamespace) != node.info.namespace then SchemaHeader(node.info.namespace)
                else old(node.source)
    {
      if currentNamespace != node.info.namespace {
        currentNamespace := node.info.namespace;
        node.source := SchemaHeader(currentNamespace);
      }
    }

    /** The four openers differ only in the marker, the language clause and
        the state they enter. */
    method OpenKeyWord(node: Ast, kind: Token, language: string)
      modifies this, node
      ensures node.source == OpenerText(String(kind), old(currentNamespace), node.raw, language)
      ensures currentState == kind && currentNamespace == old(currentNamespace)
    {
      var functionName := FunctionName(currentNamespace);
      var macro := ReplaceAll(node.Text(), String(kind) + " ", functionName);
      node.source := "CREATE OR REPLACE " + macro + "\n" + language;
      currentState := kind;
    }

    method OpenImFuncKeyWord(node: Ast)
      modifies this, node
      ensures node.source == OpenerText(String(IMFUNC), old(currentNamespace), node.raw, FunctionLanguage)
      ensures currentState == IMFUNC && currentNamespace == old(currentNamespace)
    {
      OpenKeyWord(node, IMFUNC, FunctionLanguage);
    }

    method OpenFuncKeyWord(node: Ast)
      modifies this, node
      ensures node.source == OpenerText(String(FUNC), old(currentNamespace), node.raw, FunctionLanguage)
      ensures currentState == FUNC && currentNamespace == old(currentNamespace)
    {
      OpenKeyWord(node, FUNC, FunctionLanguage);
    }

    method OpenImProcKeyWord(node: Ast)
      modifies this, node
      ensures node.source == OpenerText(String(IMPROC), old(currentNamespace), node.raw, ProcedureLanguage)
      ensures currentState == IMPROC && currentNamespace == old(currentNamespace)
    {
      OpenKeyWord(node, IMPROC, ProcedureLanguage);
    }

    method OpenProcKeyWord(node: Ast)
      modifies this, node
      ensures node.source == OpenerText(String(PROC), old(currentNamespace), node.raw, ProcedureLanguage)
      ensures currentState == PROC && currentNamespace == old(currentNamespace)
    {
      OpenKeyWord(node, PROC, ProcedureLanguage);
    }

    method MacroScopeExpand(node: Ast)
      modifies node
      ensures node.source == ScopeText(node.info.namespace, node.raw)
    {
      var cleaned := ReplaceAll(node.Text(), "this.", node.info.namespace + ".");
      node.source := ReplaceAll(cleaned, "getv(", "vars.getv(");
    }

    method MacroExpandDefault(node: Ast)
      modifies node
      ensures node.source == DefaultText(node.raw, node.info.namespace, node.position)
    {
      node.source := node.Text() + " -- " + node.info.namespace + ":" + node.Line();
    }

    method MacroExpandExec(node: Ast)
      modifies node
      ensures node.source == ExecText(node.raw)
    {
      node.source := ReplaceAll(node.Text(), "exec!", "EXECUTE ");
    }

    /** MacroExpandQuery: the two replacement loops over the matches found in
        the marker-free line, then the blank after the first quote. */
    method MacroExpandQuery(node: Ast)
      modifies node
      ensures node.source == QueryText(node.raw)
    {
      var statement := ReplaceAll(node.Text(), "|> ", "");
      var vars := FindAll(statement, "{{", 0);
      var qvars := FindAll(statement, "#{{", 0);
      ghost var stripped := statement;
      var i := 0;
      while i < |qvars|
        invariant 0 <= i <= |qvars|
        invariant statement == Substitute(stripped, qvars[..i], true)
      {
        var clean := StripChars(qvars[i], "#{}");
        statement := ReplaceFirst(statement, qvars[i], "'''||" + clean + "||'''");
        assert qvars[..i + 1][..i] == qvars[..i];
        i := i + 1;
      }
      assert qvars[..i] == qvars;
      ghost var quoted := statement;
      var j := 0;
      while j < |vars|
        invariant 0 <= j <= |vars|
        invariant statement == Substitute(quoted, vars[..j], false)
      {
        var clean := StripChars(vars[j], "{}");
        statement := ReplaceFirst(statement, vars[j], "'||" + clean + "||'");
        assert vars[..j + 1][..j] == vars[..j];
        j := j + 1;
      }
      assert vars[..j] == vars;
      statement := ReplaceFirst(statement, "'", "' ");
      node.source := statement;
    }

    method CloseFuncKeyWord(node: Ast, state: string)
      modifies node
      ensures node.source == CloseFunc(state)
    {
      node.source := "$$ " + state + ";" + " " + "\n";
    }

    method CloseProcKeyWord(node: Ast, state: string)
      modifies node
      ensures node.source == CloseProc(state)
    {
      node.source := "END; $$ " + state + ";" + " " + "\n";
    }

    /** CloseStatment: the closer of the current block; nothing in any other
        state. */
    method CloseStatment(node: Ast)
      modifies node
      ensures node.source == CloseText(currentState, old(node.source))
    {
      if State(FUNC) {
        CloseFuncKeyWord(node, "IMMUTABLE");
      } else if State(IMFUNC) {
        CloseFuncKeyWord(node, "");
      } else if State(PROC) {
        CloseProcKeyWord(node, "IMMUTABLE");
      } else if State(IMPROC) {
        CloseProcKeyWord(node, "");
      }
    }

    /** The switch of Compile for one node, after the schema step: the empty
        line and the closer first, then the openers, then the rest. */
    method Dispatch(node: Ast)
      requires currentNamespace == node.info.namespace
      modifies this, node
      ensures node.source == RuleText(Choose(old(currentState), node), old(currentState), node, old(node.source))
      ensures currentState == NextState(old(currentState), Choose(old(currentState), node))
      ensures currentNamespace == old(currentNamespace)
    {
      if node.IsEmpty() {
      } else if !node.IsWhiteSpace() && !State(START) {
        CloseStatment(node);
        currentState := START;
      } else {
        DispatchOpeners(node);
      }
    }

    /** The four opener cases of the switch. */
    method DispatchOpeners(node: Ast)
      requires currentNamespace == node.info.namespace
      requires !node.IsEmpty() && (node.IsWhiteSpace() || State(START))
      modifies this, node
      ensures node.source == RuleText(Choose(old(currentState), node), old(currentState), node, old(node.source))
      ensures currentState == NextState(old(currentState), Choose(old(currentState), node))
      ensures currentNamespace == old(currentNamespace)
    {
      if State(START) && node.IsImFunc() {
        OpenImFuncKeyWord(node);
      } else if State(START) && node.IsFunc() {
        OpenFuncKeyWord(node);
      } else if State(START) && node.IsImProc() {
        OpenImProcKeyWord(node);
      } else if State(START) && node.IsProc() {
        OpenProcKeyWord(node);
      } else {
        DispatchBody(node);
      }
    }

    /** The remaining cases of the switch: exec and query lines inside an
        immutable procedure, then the scope macro or the passthrough. */
    method DispatchBody(node: Ast)
      requires !node.IsEmpty() && (node.IsWhiteSpace() || State(START))
      requires State(START) ==> !node.IsImFunc() && !node.IsFunc() && !node.IsImProc() && !node.IsProc()
      modifies node
      ensures node.source == RuleText(Choose(currentState, node), currentState, node, old(node.source))
      ensures NextState(currentState, Choose(currentState, node)) == currentState
    {
      if State(IMPROC) && node.IsExec() {
        MacroExpandExec(node);
      } else if State(IMPROC) && node.IsQuery() {
        MacroExpandQuery(node);
      } else if !node.IsNewLine() {
        var slashed := SlashPatternMatches(node.Text());
        var statement := SqlPatternMatches(node.Text());
        if slashed || statement {
          // Neither scope pattern can match (ScopePatternsNeverMatch), so the
          // scope macro is never reached from here.
          assert false;
        } else {
          MacroExpandDefault(node);
        }
      }
    }

    /** One iteration of Compile's loop: the schema step, then the switch. */
    method Visit(node: Ast, ghost s: PassState, ghost prior: string)
      requires Fields() == s && node.source == prior
      modifies this, node
      ensures node.source == Emit(s, node, prior)
      ensures Fields() == Step(s, node)
    {
      CreateSchemaDefinition(node);
      Dispatch(node);
    }

    /** Visit the node at `i`, stated against the whole pass. */
    method VisitAt(ghost start: PassState, nodes: seq<Ast>, ghost before: seq<string>,
                   ghost states: seq<PassState>, i: nat)
      requires |before| == |nodes| && i < |nodes| && states == States(start, nodes)
      requires |states| == |nodes| + 1 && Fields() == states[i] && nodes[i].source == before[i]
      modifies this, nodes[i]
      ensures nodes[i].source == Emit(states[i], nodes[i], before[i])
      ensures Fields() == states[i + 1]
    {
      StatesAt(start, nodes, i);
      StatesAt(start, nodes, i + 1);
      Visit(nodes[i], states[i], before[i]);
      RunSnoc(start, nodes, i);
    }

    /** The loop of Compile: every loaded node is visited once, in order;
        `before` holds the nodes' texts beforehand. */
    method VisitAll(ghost before: seq<string>)
      requires scanner.Valid()
      requires |before| == |scanner.buffer|
      requires forall j :: 0 <= j < |before| ==> scanner.buffer[j].source == before[j]
      modifies this, scanner.buffer
      ensures var nodes := old(scanner.buffer);
              Fields() == Run(old(Fields()), nodes) &&
              forall j :: 0 <= j < |nodes| ==>
                nodes[j].source == Emit(Run(old(Fields()), nodes[..j]), nodes[j], before[j])
    {
      var nodes := scanner.buffer;
      ghost var start := Fields();
      ghost var states := States(start, nodes);
      StatesAt(start, nodes, 0);
      var i := 0;
      while i < |nodes|
        invariant 0 <= i <= |nodes|
        invariant Fields() == states[i]
        invariant forall j {:trigger Emit(states[j], nodes[j], before[j])} :: 0 <= j < i ==>
                    nodes[j].source == Emit(states[j], nodes[j], before[j])
        invariant forall j :: i <= j < |nodes| ==> nodes[j].source == before[j]
      {
        assert forall j :: 0 <= j < |nodes| && j != i ==> nodes[j] != nodes[i];
        VisitAt(start, nodes, before, states, i);
        i := i + 1;
      }
      StatesAt(start, nodes, i);
      assert nodes[..i] == nodes;
      forall j | 0 <= j < |nodes|
        ensures nodes[j].source == Emit(Run(start, nodes[..j]), nodes[j], before[j])
      {
        StatesAt(start, nodes, j);
        assert nodes[j].source == Emit(states[j], nodes[j], before[j]);
      }
    }

    /** Compile: visit every loaded node in order, then close a block left
        open with one extra node. The state is not reset after that close.
        (Loading the files is not part of this model: the buffer is taken as
        loaded.) */
    method Compile()
      requires scanner.Valid()
      modifies this, scanner, scanner.buffer
      ensures var nodes := old(scanner.buffer);
              var last := Run(old(Fields()), nodes);
              Fields() == last &&
              (forall j :: 0 <= j < |nodes| ==>
                 nodes[j].source == Emit(Run(old(Fields()), nodes[..j]), nodes[j], old(nodes[j].source))) &&
              (last.state == START ==> scanner.buffer == nodes) &&
              (last.state != START ==>
                 |scanner.buffer| == |nodes| + 1 && scanner.buffer[..|nodes|] == nodes &&
                 fresh(scanner.buffer[|nodes|]) && ClosingNode(scanner.buffer[|nodes|], last.state))
      ensures scanner.Valid()
    {
      VisitAll(SourcesOf(scanner.buffer));
      if !State(START) {
        var node := EmptyAstNode();
        CloseStatment(node);
        scanner.buffer := scanner.buffer + [node];
      }
    }

    /** Parse: compile, then the output is every node's text followed by a
        newline. The text is returned rather than printed. */
    method Parse() returns (output: string)
      requires scanner.Valid()
      modifies this, scanner, scanner.buffer
      ensures var nodes := old(scanner.buffer);
              var last := Run(old(Fields()), nodes);
              Fields() == last &&
              (forall j :: 0 <= j < |nodes| ==>
                 nodes[j].source == Emit(Run(old(Fields()), nodes[..j]), nodes[j], old(nodes[j].source))) &&
              (last.state == START ==> scanner.buffer == nodes) &&
              (last.state != START ==>
                 |scanner.buffer| == |nodes| + 1 && scanner.buffer[..|nodes|] == nodes &&
                 fresh(scanner.buffer[|nodes|]) && ClosingNode(scanner.buffer[|nodes|], last.state))
      ensures scanner.Valid()
      ensures output == Joined(SourcesOf(scanner.buffer))
    {
      Compile();
      output := Concatenate(scanner.buffer);
    }
  }

  /** The output loop of Parse: each node's text and a newline, in order. */
  method Concatenate(nodes: seq<Ast>) returns (output: string)
    ensures output == Joined(SourcesOf(nodes))
  {
    output := "";
    var i := 0;
    while i < |nodes|
      invariant 0 <= i <= |nodes|
      invariant output == Joined(SourcesOf(nodes)[..i])
    {
      output := output + nodes[i].source + "\n";
      assert SourcesOf(nodes)[..i + 1][..i] == SourcesOf(nodes)[..i];
      i := i + 1;
    }
    assert SourcesOf(nodes)[..i] == SourcesOf(nodes);
  }
}
