/** The token table of the macro language: the block states double as tokens,
    each marker token has its literal text, and a keyword map built at start-up
    turns a (case-folded) marker back into its token. */
module Token {
  import opened GoStrings

  /** Go's `type Token int`: every integer is a Token value; the named ones follow. */
  newtype Token = int

  const START: Token := 0
  const COMMENT: Token := 1
  const FUNC: Token := 2
  const IMFUNC: Token := 3
  const PROC: Token := 4
  const IMPROC: Token := 5
  const EXEC: Token := 6
  const QUERY: Token := 7
  const IDENT: Token := 8
  const EOF: Token := 9

  /** The marker table, indexed by token. START has no entry and holds the
      zero value; the table ends at IDENT, so EOF is outside it. */
  const Tokens: seq<string> := ["", "--", "func", "func!", "proc", "proc!", "exec!", "|>", ""]

  /** Token.String: the table entry for tokens inside the table, "" for all others. */
  function String(t: Token): string {
    if 0 <= t < |Tokens| as Token then Tokens[t as int] else ""
  }

  /** START, EOF and every integer outside the table print as "". */
  lemma StringOutsideMarkers(t: Token)
    requires t <= START || t >= IDENT
    ensures String(t) == ""
  {
  }

  /** The seven markers are non-empty, and the table entries from COMMENT to
      IDENT are pairwise distinct. */
  lemma MarkersDistinct(t: Token, u: Token)
    requires START < t < EOF && START < u < EOF
    ensures t <= QUERY ==> |String(t)| > 0
    ensures t != u ==> String(t) != String(u)
  {
  }

  /** The keyword map that `init` builds: every token from COMMENT to IDENT under
      its lower-cased marker. */
  const Keywords: map<string, Token> :=
    map["--" := COMMENT, "func" := FUNC, "func!" := IMFUNC, "proc" := PROC,
        "proc!" := IMPROC, "exec!" := EXEC, "|>" := QUERY, "" := IDENT]

  /** No marker has an upper-case letter, so case folding leaves each one as it is. */
  lemma MarkersAreLowerCase(t: Token)
    requires START <= t < EOF
    ensures ToLower(Tokens[t as int]) == Tokens[t as int]
  {
    var marker := Tokens[t as int];
    assert forall k :: 0 <= k < |marker| ==> !('A' <= marker[k] <= 'Z');
    ToLowerFixed(marker);
  }

  /** `m` maps each marker of the tokens after START and before `upto` to its token ... */
  predicate TableCovers(m: map<string, Token>, upto: Token) {
    forall t :: START < t < upto ==> String(t) in m && m[String(t)] == t
  }

  /** ... and has no other keys. */
  predicate TableWithin(m: map<string, Token>, upto: Token) {
    forall k :: k in m ==> exists t :: START < t < upto && String(t) == k
  }

  /** The table of the markers of the tokens after START and before `upto`. */
  predicate TableUpTo(m: map<string, Token>, upto: Token) {
    TableCovers(m, upto) && TableWithin(m, upto)
  }

  /** `m` maps each marker from COMMENT to IDENT to its token and has no other keys. */
  predicate IsKeywordTable(m: map<string, Token>) {
    TableUpTo(m, EOF)
  }

  /** Adding the next marker keeps the earlier markers' tokens ... */
  lemma TableStepCovers(m: map<string, Token>, tok: Token)
    requires START < tok < EOF && TableCovers(m, tok)
    ensures TableCovers(m[String(tok) := tok], tok + 1)
  {
    forall t | START < t < tok ensures String(t) != String(tok) {
      MarkersDistinct(t, tok);
    }
  }

  /** ... and every key is still some token's marker. */
  lemma TableStepWithin(m: map<string, Token>, tok: Token)
    requires START < tok < EOF && TableWithin(m, tok)
    ensures TableWithin(m[String(tok) := tok], tok + 1)
  {
    var m' := m[String(tok) := tok];
    forall k | k in m' ensures exists t :: START < t < tok + 1 && String(t) == k {
      if k != String(tok) {
        var t :| START < t < tok && String(t) == k;
        assert START < t < tok + 1;
      }
    }
  }

  /** Adding the next marker extends a partial table by one token. */
  lemma TableStep(m: map<string, Token>, tok: Token)
    requires START < tok < EOF && TableUpTo(m, tok)
    ensures TableUpTo(m[String(tok) := tok], tok + 1)
  {
    TableStepCovers(m, tok);
    TableStepWithin(m, tok);
  }

  /** A keyword table holds every entry of the literal map ... */
  lemma KeywordTableCovers(m: map<string, Token>)
    requires IsKeywordTable(m)
    ensures forall k :: k in Keywords ==> k in m && m[k] == Keywords[k]
  {
    forall k | k in Keywords ensures k in m && m[k] == Keywords[k] {
      var t := Keywords[k];
      assert String(t) == k;
    }
  }

  /** ... and no other key. */
  lemma KeywordTableWithin(m: map<string, Token>)
    requires IsKeywordTable(m)
    ensures forall k :: k in m ==> k in Keywords
  {
    forall k | k in m ensures k in Keywords {
      var t :| START < t < EOF && String(t) == k;
      assert Keywords[String(t)] == t;
    }
  }

  /** Only one map is a keyword table: the literal one above. */
  lemma KeywordTableUnique(m: map<string, Token>)
    requires IsKeywordTable(m)
    ensures m == Keywords
  {
    KeywordTableCovers(m);
    KeywordTableWithin(m);
  }

  /** init: fill the keyword map in token order, from START + 1 up to EOF. */
  method Init() returns (keywords: map<string, Token>)
    ensures IsKeywordTable(keywords)
    ensures keywords == Keywords
  {
    keywords := map[];
    var tok := START + 1;
    while tok < EOF
      invariant START + 1 <= tok <= EOF
      invariant TableUpTo(keywords, tok)
    {
      MarkersAreLowerCase(tok);
      TableStep(keywords, tok);
      keywords := keywords[ToLower(Tokens[tok as int]) := tok];
      tok := tok + 1;
    }
    KeywordTableUnique(keywords);
  }

  /** Each marker is a key of the keyword map, under its own token. */
  lemma KeywordsHoldMarkers(t: Token)
    requires COMMENT <= t <= IDENT
    ensures String(t) in Keywords && Keywords[String(t)] == t
  {
  }

  /** Lookup: the token whose marker is `ident` up to case, IDENT for anything else. */
  function Lookup(ident: string): (t: Token)
    ensures START < t < EOF
  {
    var key := ToLower(ident);
    if key in Keywords then Keywords[key] else IDENT
  }

  /** Every token from COMMENT to IDENT is found again from its own marker. */
  lemma LookupString(t: Token)
    requires COMMENT <= t <= IDENT
    ensures Lookup(String(t)) == t
  {
    MarkersAreLowerCase(t);
    KeywordsHoldMarkers(t);
  }

  /** Lookup ignores case. */
  lemma LookupCaseInsensitive(s: string)
    ensures Lookup(s) == Lookup(ToLower(s))
  {
    ToLowerIdempotent(s);
  }

  /** Lookup answers IDENT exactly for the strings that are no marker up to case. */
  lemma LookupIdentIff(s: string)
    ensures Lookup(s) == IDENT <==> forall t :: COMMENT <= t <= QUERY ==> ToLower(s) != String(t)
  {
    if Lookup(s) != IDENT {
      var key := ToLower(s);
      var t := Keywords[key];
      assert String(t) == key;
    }
  }
}
