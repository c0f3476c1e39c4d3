/**
 Preparing a query on the client: the server reads the same statement, and the text it gets does not depend on the
 values.
 */
module ClientQuery {
  import opened Base
  import opened Tokenizer
  import opened Lifting
  import opened Parser
  import opened LiftedStatement
  import opened Gluing

  // ---- statements and trimming --------------------------------------------

  function StripLeft(s: string): (r: string) {
    if s != "" && IsSpace(s[0]) then StripLeft(s[1..]) else s
  }

  function StripRight(s: string): (r: string) {
    if s != "" && IsSpace(s[|s| - 1]) then StripRight(s[..|s| - 1]) else s
  }

  function Strip(s: string): (r: string) {
    StripRight(StripLeft(s))
  }

  /** Surrounding blanks and one trailing semicolon go. */
  function TrimStatement(sql: string): (r: string) {
    var t := Strip(sql);
    Strip(if t != "" && t[|t| - 1] == ';' then t[..|t| - 1] else t)
  }

  function ParseText(sql: string): (r: Result<Statement>) {
    match Tokens(TrimStatement(sql))
    case Err(e) => Err(e)
    case Ok(tokens) => match ParseStatement(Plain(tokens)) case None => Err(InvalidArgument) case Some(s) => Ok(s)
  }

  predicate EndsClean(s: string) {
    s != "" && !IsSpace(s[|s| - 1]) && s[|s| - 1] != ';'
  }

  lemma {:induction false} CleanIsTrimmed(s: string)
    requires EndsClean(s) && !IsSpace(s[0])
    ensures TrimStatement(s) == s
  {
  }

  lemma {:induction false} StripEnds(s: string)
    ensures Strip(s) != "" ==> !IsSpace(Strip(s)[0]) && !IsSpace(Strip(s)[|Strip(s)| - 1])
  {
    StripLeftStarts(s);
    StripRightEnds(StripLeft(s));
  }

  lemma {:induction false} StripLeftStarts(s: string)
    ensures StripLeft(s) != "" ==> !IsSpace(StripLeft(s)[0])
  {
    if s != "" && IsSpace(s[0]) {
      StripLeftStarts(s[1..]);
    }
  }

  lemma {:induction false} StripRightEnds(s: string)
    ensures StripRight(s) != "" ==> !IsSpace(StripRight(s)[|StripRight(s)| - 1]) && s != "" && StripRight(s)[0] == s[0]
  {
    if s != "" && IsSpace(s[|s| - 1]) {
      StripRightEnds(s[..|s| - 1]);
    }
  }

  /** The last character of a lexeme that is kept in a template is no semicolon. */
  lemma {:induction false} LexemeEnds(s: string, w: Word, n: nat)
    requires 0 < n <= |s| && First(s) == Lexed(w, n) && w.kind != StringLiteral
    ensures s[n - 1] != ';'
  {
    hide KeywordOrIdentifier;
  }

  function Piece(s: string, w: Word, n: nat, prev: Kind, k: nat, single: bool): (t: string)
    requires n <= |s|
  {
    if Lifts(prev, w.kind) then ":" + Name(single, k) else s[..n]
  }

  lemma {:induction false} TemplateIsPieces(s: string, w: Word, n: nat, prev: Kind, k: nat, single: bool)
    requires 0 < n <= |s| && First(s) == Lexed(w, n)
    ensures Template(s, prev, k, single)
            == Piece(s, w, n, prev, k, single)
                + Template(s[n..], w.kind, if Lifts(prev, w.kind) then k + 1 else k, single)
  {
    hide First, Lifts, Name;
  }

  lemma {:induction false} PieceEnds(s: string, w: Word, n: nat, prev: Kind, k: nat, single: bool)
    requires 0 < n <= |s| && First(s) == Lexed(w, n) && !IsSpace(s[n - 1]) && k < 100000
    ensures EndsClean(Piece(s, w, n, prev, k, single))
  {
    hide First, Name;
    if Lifts(prev, w.kind) {
      NameIsWord(single, k);
      WordEndsClean(Name(single, k));
    } else {
      LexemeEnds(s, w, n);
      assert s[..n][n - 1] == s[n - 1];
    }
  }

  lemma {:induction false} SuffixEnds(a: string, b: string)
    requires EndsClean(b)
    ensures EndsClean(a + b)
  {
    assert (a + b)[|a + b| - 1] == b[|b| - 1];
  }

  /** A template of a text that lexes and ends in no blank ends in no blank and no semicolon. */
  lemma {:induction false} TemplateEnds(s: string, prev: Kind, k: nat, single: bool, at: nat)
    requires s != "" && Lex(s, at).Some? && !IsSpace(s[|s| - 1]) && k + |s| < 100000
    ensures EndsClean(Template(s, prev, k, single))
    decreases |s|
  {
    hide First, Name, Lifts, EndsClean, Piece, IsSpace;
    FirstInRange(s);
    match First(s)
    case Blank =>
      BlankStarts(s);
      assert s[1..][|s| - 2] == s[|s| - 1];
      TemplateEnds(s[1..], prev, k, single, at + 1);
      SuffixEnds([s[0]], Template(s[1..], prev, k, single));
    case Lexed(w, n) =>
      LexesOn(s, at, w, n);
      TemplateIsPieces(s, w, n, prev, k, single);
      var piece := Piece(s, w, n, prev, k, single);
      if n < |s| {
        assert s[n..][|s| - n - 1] == s[|s| - 1];
        TemplateEnds(s[n..], w.kind, if Lifts(prev, w.kind) then k + 1 else k, single, at + n);
        SuffixEnds(piece, Template(s[n..], w.kind, if Lifts(prev, w.kind) then k + 1 else k, single));
      } else {
        PieceEnds(s, w, n, prev, k, single);
        assert piece + "" == piece;
      }
  }

  lemma {:induction false} BlankStarts(s: string)
    requires s != "" && First(s).Blank?
    ensures IsSpace(s[0])
  {
  }

  lemma {:induction false} WordEndsClean(name: string)
    requires name != "" && forall i :: 0 <= i < |name| ==> IsIdentifierChar(name[i])
    ensures EndsClean(":" + name)
  {
    assert IsIdentifierChar(name[|name| - 1]);
  }

  lemma {:induction false} TrimEnds(sql: string)
    ensures TrimStatement(sql) != "" ==>
              !IsSpace(TrimStatement(sql)[0]) && !IsSpace(TrimStatement(sql)[|TrimStatement(sql)| - 1])
  {
    hide IsSpace;
    var t := Strip(sql);
    StripEnds(if t != "" && t[|t| - 1] == ';' then t[..|t| - 1] else t);
    hide Strip;
  }

  /** A trimmed text that lexes needs no more trimming. */
  lemma {:induction false} TrimmedStays(sql: string)
    requires Lex(TrimStatement(sql), 0).Some?
    ensures TrimStatement(TrimStatement(sql)) == TrimStatement(sql)
  {
    var s := TrimStatement(sql);
    TrimEnds(sql);
    if s == "" {
      assert TrimStatement("") == "";
    } else {
      hide TrimStatement, IsSpace, Lex;
      LastIsNoSemicolon(s, 0);
      CleanIsTrimmed(s);
    }
  }

  lemma {:induction false} LastIsNoSemicolon(s: string, at: nat)
    requires s != "" && Lex(s, at).Some?
    ensures s[|s| - 1] != ';'
    decreases |s|
  {
    hide First;
    FirstInRange(s);
    match First(s)
    case Blank =>
      BlankStarts(s);
      if |s| > 1 {
        LastIsNoSemicolon(s[1..], at + 1);
      }
    case Lexed(w, n) =>
      if n < |s| {
        LastIsNoSemicolon(s[n..], at + n);
      } else if w.kind == StringLiteral {
        StringEnds(s, w, n);
      } else {
        LexemeEnds(s, w, n);
      }
  }

  lemma {:induction false} StringEnds(s: string, w: Word, n: nat)
    requires 0 < n <= |s| && First(s) == Lexed(w, n) && w.kind == StringLiteral
    ensures IsQuote(s[n - 1])
  {
    FirstCharacter(s);
  }

  // ---- preparing ----------------------------------------------------------

  function ValueOf(w: Word): (v: Option<Value>) {
    if w.kind == StringLiteral then Some(Text(w.text))
    else match Atoi(w.text, MAX_INT64) case Some(n) => Some(Int(n)) case None => None
  }

  /** The values of the literals in order; none if a number is out of range. */
  function ValuesOf(lits: seq<Token>): (r: Option<seq<Value>>) {
    if lits == [] then Some([])
    else
      match ValuesOf(lits[..|lits| - 1])
      case None => None
      case Some(front) =>
        match ValueOf(lits[|lits| - 1].word) case None => None case Some(v) => Some(front + [v])
  }

  datatype Prepared = Prepared(template: string, literals: seq<Value>, count: bool, limit: Option<nat>,
      offset: Option<nat>)

  /** p is what the client sends and keeps for the text src, which parses as statement and has these tokens. */
  ghost predicate Prepares(src: string, tokens: seq<Token>, statement: Statement, p: Prepared) {
    && Tokens(src) == Ok(tokens) && ParseText(src) == Ok(statement)
    && p.template == Template(src, End, 0, |Literals(tokens, End)| == 1)
    && ValuesOf(Literals(tokens, End)) == Some(p.literals)
    && p.limit == statement.limit && p.offset == statement.offset && p.count == statement.projection.CountStar?
  }

  lemma {:induction false} LexEnds(s: string, at: nat)
    requires Lex(s, at).Some?
    ensures Lex(s, at).value != [] && Lex(s, at).value[|Lex(s, at).value| - 1].word.kind == End
    decreases |s|
  {
    hide First;
    if s != "" {
      FirstInRange(s);
      match First(s)
      case Blank => LexEnds(s[1..], at + 1);
      case Lexed(w, n) => LexEnds(s[n..], at + n);
    }
  }

  method Parse(sql: string) returns (r: Result<Statement>)
    ensures r == ParseText(sql)
  {
    hide ParseStatement;
    var tokens := Tokenize(TrimStatement(sql));
    if tokens.Err? {
      return Err(InvalidArgument);
    }
    LexEnds(TrimStatement(sql), 0);
    var cursor := new Cursor(Plain(tokens.value));
    var s := cursor.StatementClause();
    r := if s.None? then Err(InvalidArgument) else Ok(s.value);
  }

  method TypeLiterals(lits: seq<Token>) returns (r: Option<seq<Value>>)
    ensures r == ValuesOf(lits)
  {
    var values: seq<Value> := [];
    for i := 0 to |lits|
      invariant ValuesOf(lits[..i]) == Some(values)
    {
      assert lits[..i + 1][..i] == lits[..i];
      var v := ValueOf(lits[i].word);
      if v.None? {
        NoValueNoValues(lits, i + 1);
        return None;
      }
      values := values + [v.value];
    }
    assert lits[..|lits|] == lits;
    r := Some(values);
  }

  lemma {:induction false} NoValueNoValues(lits: seq<Token>, n: nat)
    requires n <= |lits| && ValuesOf(lits[..n]).None?
    ensures ValuesOf(lits).None?
    decreases |lits| - n
  {
    if n == |lits| {
      assert lits[..n] == lits;
    } else {
      assert lits[..n + 1][..n] == lits[..n];
      NoValueNoValues(lits, n + 1);
    }
  }

  method PrepareClientQuery(sql: string)
      returns (r: Result<Prepared>, ghost tokens: seq<Token>, ghost statement: Statement)
    ensures r.Ok? ==> Prepares(TrimStatement(sql), tokens, statement, r.value)
    ensures r.Err? ==>
              var src := TrimStatement(sql);
              ParseText(src).Err? || Tokens(src).Err? || ValuesOf(Literals(Tokens(src).value, End)).None?
  {
    var src := TrimStatement(sql);
    tokens, statement := [], Statement(false, All, "", None, [], None, None);
    var parsed := Parse(src);
    if parsed.Err? {
      return Err(InvalidArgument), tokens, statement;
    }
    var lexed := Tokenize(src);
    if lexed.Err? {
      return Err(InvalidArgument), tokens, statement;
    }
    tokens, statement := lexed.value, parsed.value;
    var lits := CollectLiterals(lexed.value);
    var values := TypeLiterals(lits);
    if values.None? {
      return Err(InvalidArgument), tokens, statement;
    }
    var templated := Splice(src, lexed.value, lits);
    hide Template, ParseText, Literals, TrimStatement;
    r := Ok(Prepared(templated, values.value, parsed.value.projection.CountStar?, parsed.value.limit,
        parsed.value.offset));
  }

  // ---- what the server gets -----------------------------------------------

  /**
   The template has the source's words with the i-th literal as parameter v or v<i> exactly when no literal is
   directly followed by a letter or underscore and the template stays within the length limit.
   */
  lemma {:induction false} TemplateReadsBack(src: string, tokens: seq<Token>, statement: Statement, p: Prepared)
    requires Prepares(src, tokens, statement, p)
    ensures (Tokens(p.template).Ok? &&
             Plain(Tokens(p.template).value) == LiftWords(Plain(tokens), End, 0, |Literals(tokens, End)| == 1))
            <==> !Glued(src, End) && |p.template| <= MAX_SQL_LENGTH
  {
    hide Template, Literals, Lex, ParseText, LiftWords, Glued;
    var single := |Literals(tokens, End)| == 1;
    TemplateWords(src, End, 0, single, 0, 0);
  }

  /** Then the server parses the source's statement, with parameters for its literals. */
  lemma {:induction false} UngluedIsRead(sql: string, src: string, tokens: seq<Token>, statement: Statement,
                                         p: Prepared)
    requires Prepares(src, tokens, statement, p) && src == TrimStatement(sql)
    requires !Glued(src, End) && |p.template| <= MAX_SQL_LENGTH
    ensures ParseText(p.template) == Ok(LiftStatement(statement, |Literals(tokens, End)| == 1))
  {
    hide Template, Literals, Lex, LiftWords, Glued, ParseStatement, TrimStatement, ValuesOf;
    PreparedParses(sql, src, tokens, statement, p);
    TemplateReadsBack(src, tokens, statement, p);
    LiftedWordsParse(Plain(tokens), |Literals(tokens, End)| == 1);
    TemplateIsTrimmed(src, tokens, statement, p);
  }

  /** Otherwise it refuses the template: a literal glued to the next word is never misread. */
  lemma {:induction false} GluedIsRefused(sql: string, src: string, tokens: seq<Token>, statement: Statement,
                                          p: Prepared)
    requires Prepares(src, tokens, statement, p) && src == TrimStatement(sql)
    requires Glued(src, End) || |p.template| > MAX_SQL_LENGTH
    ensures ParseText(p.template).Err?
  {
    hide Template, Literals, Lex, Glued, ParseStatement, TrimStatement, ValuesOf, AllFit, Misfit, EndsOnce;
    PreparedParses(sql, src, tokens, statement, p);
    TemplateIsTrimmed(src, tokens, statement, p);
    if ParseText(p.template).Ok? {
      LexEndsOnce(src, 0);
      ParsedFits(Plain(tokens));
      GluedShows(src, End, 0, |Literals(tokens, End)| == 1);
      LexEndsOnce(p.template, 0);
      StatementHasNoMisfit(WordsOf(p.template).value);
    }
  }

  lemma {:induction false} ParsedFits(words: seq<Word>)
    requires ParseStatement(words).Some? && EndsOnce(words)
    ensures AllFit(words)
  {
    StatementFits(words);
  }

  /** So the server reads the source's statement exactly when nothing is glued and the length limit is kept. */
  lemma {:induction false} ServerReadsStatement(sql: string, src: string, tokens: seq<Token>, statement: Statement,
                                                p: Prepared)
    requires Prepares(src, tokens, statement, p) && src == TrimStatement(sql)
    ensures ParseText(p.template)
            == if !Glued(src, End) && |p.template| <= MAX_SQL_LENGTH
               then Ok(LiftStatement(statement, |Literals(tokens, End)| == 1))
               else Err(InvalidArgument)
  {
    hide Prepares, Literals, LiftStatement, Glued, TrimStatement, ParseStatement;
    if !Glued(src, End) && |p.template| <= MAX_SQL_LENGTH {
      UngluedIsRead(sql, src, tokens, statement, p);
    } else {
      GluedIsRefused(sql, src, tokens, statement, p);
      hide Tokens;
      OneError(p.template);
    }
  }

  lemma {:induction false} OneError(sql: string)
    ensures ParseText(sql).Err? ==> ParseText(sql).error == InvalidArgument
  {
    hide Lex, ParseStatement, TrimStatement;
  }

  lemma {:induction false} NothingParsesFromNothing()
    ensures ParseText("").Err?
  {
    assert TrimStatement("") == "";
    assert Plain(Lex("", 0).value) == [Word(End, "")];
  }

  lemma {:induction false} TrimmedEnds(src: string)
    requires TrimStatement(src) == src && src != ""
    ensures !IsSpace(src[0]) && !IsSpace(src[|src| - 1])
  {
    hide TrimStatement, IsSpace;
    TrimEnds(src);
  }

  lemma {:induction false} TemplateIsTrimmed(src: string, tokens: seq<Token>, statement: Statement, p: Prepared)
    requires Prepares(src, tokens, statement, p) && TrimStatement(src) == src
    ensures TrimStatement(p.template) == p.template
  {
    hide Template, Literals, ParseText, TrimStatement, First, Name, IsSpace;
    NothingParsesFromNothing();
    TrimmedEnds(src);
    TemplateEnds(src, End, 0, |Literals(tokens, End)| == 1, 0);
    TemplateHead(src, End, 0, |Literals(tokens, End)| == 1);
    ColonIsNoSpace();
    CleanIsTrimmed(p.template);
  }

  lemma {:induction false} ColonIsNoSpace()
    ensures !IsSpace(':')
  {
  }

  lemma {:induction false} LexEndsOnce(s: string, at: nat)
    requires Lex(s, at).Some?
    ensures EndsOnce(Plain(Lex(s, at).value))
    decreases |s|
  {
    hide First;
    if s != "" {
      FirstInRange(s);
      FirstIsNoEnd(s);
      match First(s)
      case Blank => LexEndsOnce(s[1..], at + 1);
      case Lexed(w, n) =>
        LexEndsOnce(s[n..], at + n);
        LexCons(s, at, w, n);
    }
  }

  lemma {:induction false} FirstIsNoEnd(s: string)
    requires s != ""
    ensures First(s).Lexed? ==> First(s).word.kind != End
  {
  }

  function LastKind(tokens: seq<Token>, prev: Kind): (k: Kind) {
    if tokens == [] then prev else tokens[|tokens| - 1].word.kind
  }

  lemma {:induction false} LiteralsAppend(tokens: seq<Token>, t: Token, prev: Kind)
    ensures Literals(tokens + [t], prev) == Literals(tokens, prev) + OneLiteral(LastKind(tokens, prev), t)
  {
    hide OneLiteral, Literals;
    if tokens == [] {
      assert [] + [t] == [t];
      OneTokenLiterals(t, prev);
      NoTokensNoLiterals(prev);
    } else {
      var rest, k := tokens[1..], tokens[0].word.kind;
      LiteralsAppend(rest, t, k);
      LiteralsFirst(tokens, prev);
      LiteralsFirst(tokens + [t], prev);
      assert (tokens + [t])[1..] == rest + [t] && (tokens + [t])[0] == tokens[0];
      assert LastKind(rest, k) == LastKind(tokens, prev);
      Regrouped(OneLiteral(prev, tokens[0]), Literals(rest, k), OneLiteral(LastKind(tokens, prev), t));
    }
  }

  lemma {:induction false} Regrouped(a: seq<Token>, b: seq<Token>, c: seq<Token>)
    ensures a + (b + c) == a + b + c
  {
  }

  lemma {:induction false} LiteralsFirst(tokens: seq<Token>, prev: Kind)
    requires tokens != []
    ensures Literals(tokens, prev) == OneLiteral(prev, tokens[0]) + Literals(tokens[1..], tokens[0].word.kind)
  {
    hide OneLiteral;
  }

  lemma {:induction false} OneTokenLiterals(t: Token, prev: Kind)
    ensures Literals([t], prev) == OneLiteral(prev, t)
  {
    hide OneLiteral;
    LiteralsFirst([t], prev);
    NoTokensNoLiterals(t.word.kind);
    assert [t][1..] == [];
    hide Literals;
    assert OneLiteral(prev, t) + [] == OneLiteral(prev, t);
  }

  lemma {:induction false} ValuesAppend(front: seq<Token>, t: Token)
    requires ValuesOf(front + [t]).Some? && IsLiteral(t.word.kind)
    ensures ValuesOf(front).Some? && ValuesOf(front + [t]).value == ValuesOf(front).value + [WordValue(t.word)]
  {
    hide Atoi;
    assert (front + [t])[..|front|] == front;
  }

  /** The typed literal tokens are the values of the lifted words. */
  lemma {:induction false} TypedInOrder(tokens: seq<Token>, n: nat, words: seq<Word>)
    requires n <= |tokens| && words == Plain(tokens) && ValuesOf(Literals(tokens[..n], End)).Some?
    ensures ValuesOf(Literals(tokens[..n], End)).value == LiftedBefore(words, End, n)
  {
    hide Lifts, Literals, ValuesOf, WordValue;
    if n == 0 {
      NoTokensNoLiterals(End);
      NoLiteralsNoValues();
    } else {
      var t, front := tokens[n - 1], Literals(tokens[..n - 1], End);
      assert tokens[..n] == tokens[..n - 1] + [t];
      LiteralsAppend(tokens[..n - 1], t, End);
      if LiftedAt(words, End, n - 1) {
        LiftsLiterals(LastKind(tokens[..n - 1], End), t.word.kind);
        ValuesAppend(front, t);
      } else {
        assert front + [] == front;
      }
      TypedInOrder(tokens, n - 1, words);
    }
  }

  lemma {:induction false} LiftsLiterals(prev: Kind, kind: Kind)
    requires Lifts(prev, kind)
    ensures IsLiteral(kind)
  {
  }

  lemma {:induction false} NoLiteralsNoValues()
    ensures ValuesOf([]) == Some([])
  {
  }

  /** The client encrypts exactly the literals of the statement, in the order of their parameters. */
  lemma {:induction false} ClientKeepsLiterals(sql: string, src: string, tokens: seq<Token>, statement: Statement,
                                               p: Prepared)
    requires Prepares(src, tokens, statement, p) && src == TrimStatement(sql)
    ensures p.literals == StatementLiterals(statement)
  {
    hide ParseText, Template, Tokens, ParseStatement, Lex, Literals, ValuesOf, TrimStatement, EndsOnce;
    PreparedParses(sql, src, tokens, statement, p);
    LexEndsOnce(src, 0);
    assert tokens[..|tokens|] == tokens;
    TypedInOrder(tokens, |tokens|, Plain(tokens));
    LiteralsInOrder(Plain(tokens));
  }

  lemma {:induction false} PreparedParses(sql: string, src: string, tokens: seq<Token>, statement: Statement,
                                          p: Prepared)
    requires Prepares(src, tokens, statement, p) && src == TrimStatement(sql)
    ensures Lex(src, 0) == Some(tokens) && TrimStatement(src) == src && ParseStatement(Plain(tokens)) == Some(statement)
  {
    hide Template, ParseStatement, Literals, ValuesOf, Lex;
    TrimmedStays(sql);
  }

  // ---- the template does not depend on the values -------------------------

  /** The same text up to what stands in the lifted literals. */
  predicate Alike(s: string, prev: Kind, s': string, prev': Kind)
    decreases |s|
  {
    if s == "" || s' == "" then s == s'
    else
      match First(s)
      case Bad => false
      case Blank => s'[0] == s[0] && Alike(s[1..], prev, s'[1..], prev')
      case Lexed(w, n) =>
        match First(s')
        case Bad => false
        case Blank => false
        case Lexed(w', n') =>
          && (Lifts(prev, w.kind) <==> Lifts(prev', w'.kind))
          && (Lifts(prev, w.kind) || s[..n] == s'[..n'])
          && Alike(s[n..], w.kind, s'[n'..], w'.kind)
  }

  lemma {:induction false} AlikeBlank(s: string, prev: Kind, s': string, prev': Kind)
    requires Alike(s, prev, s', prev') && s != "" && s' != "" && First(s).Blank?
    ensures s'[0] == s[0] && First(s').Blank? && Alike(s[1..], prev, s'[1..], prev')
  {
    BlankAlike(s, s');
    hide First;
  }

  lemma {:induction false} AlikeLexed(s: string, prev: Kind, s': string, prev': Kind, w: Word, n: nat)
      returns (w': Word, n': nat)
    requires Alike(s, prev, s', prev') && 0 < n <= |s| && s' != "" && First(s) == Lexed(w, n)
    ensures 0 < n' <= |s'| && First(s') == Lexed(w', n') && (Lifts(prev, w.kind) <==> Lifts(prev', w'.kind))
    ensures Lifts(prev, w.kind) || s[..n] == s'[..n']
    ensures Alike(s[n..], w.kind, s'[n'..], w'.kind)
  {
    hide First, Lifts;
    FirstInRange(s');
    w', n' := First(s').word, First(s').len;
  }

  lemma {:induction false} TemplateOfBlank(s: string, prev: Kind, k: nat, single: bool)
    requires s != "" && First(s).Blank?
    ensures Template(s, prev, k, single) == [s[0]] + Template(s[1..], prev, k, single)
  {
    hide First;
  }

  lemma {:induction false} SameTemplate(s: string, prev: Kind, s': string, prev': Kind, k: nat, single: bool)
    requires Alike(s, prev, s', prev')
    ensures Template(s, prev, k, single) == Template(s', prev', k, single)
    decreases |s|
  {
    hide First, Name, Lifts;
    if s != "" && s' != "" {
      FirstInRange(s);
      match First(s)
      case Bad =>
      case Blank =>
        AlikeBlank(s, prev, s', prev');
        hide Alike;
        SameTemplate(s[1..], prev, s'[1..], prev', k, single);
        TemplateOfBlank(s, prev, k, single);
        TemplateOfBlank(s', prev', k, single);
      case Lexed(w, n) =>
        var w', n' := AlikeLexed(s, prev, s', prev', w, n);
        hide Alike, Template;
        SameTemplate(s[n..], w.kind, s'[n'..], w'.kind, if Lifts(prev, w.kind) then k + 1 else k, single);
        TemplateIsPieces(s, w, n, prev, k, single);
        TemplateIsPieces(s', w', n', prev', k, single);
    }
  }

  lemma {:induction false} RemainingBlank(s: string, prev: Kind, at: nat, lits: seq<Token>)
    requires s != "" && First(s).Blank? && Remaining(s, prev, at, lits)
    ensures Remaining(s[1..], prev, at + 1, lits)
  {
    hide First;
  }

  lemma {:induction false} RemainingEnd(prev: Kind, at: nat, lits: seq<Token>)
    requires Remaining("", prev, at, lits)
    ensures lits == []
  {
    EndLiftsNothing(prev, at);
  }

  lemma {:induction false} SameLiteralCount(s: string, prev: Kind, at: nat, lits: seq<Token>, s': string, prev': Kind,
                                            at': nat, lits': seq<Token>)
    requires Alike(s, prev, s', prev') && Remaining(s, prev, at, lits) && Remaining(s', prev', at', lits')
    ensures |lits| == |lits'|
    decreases |s|
  {
    hide First, Lifts, Remaining;
    if s == "" || s' == "" {
      RemainingEnd(prev, at, lits);
      RemainingEnd(prev', at', lits');
    } else {
      FirstInRange(s);
      match First(s)
      case Bad =>
      case Blank =>
        AlikeBlank(s, prev, s', prev');
        hide Alike;
        RemainingBlank(s, prev, at, lits);
        RemainingBlank(s', prev', at', lits');
        SameLiteralCount(s[1..], prev, at + 1, lits, s'[1..], prev', at' + 1, lits');
      case Lexed(w, n) =>
        var w', n' := AlikeLexed(s, prev, s', prev', w, n);
        hide Alike;
        RemainingCons(s, w, n, prev, at, lits);
        RemainingCons(s', w', n', prev', at', lits');
        if Lifts(prev, w.kind) {
          SameLiteralCount(s[n..], w.kind, at + n, lits[1..], s'[n'..], w'.kind, at' + n', lits'[1..]);
        } else {
          SameLiteralCount(s[n..], w.kind, at + n, lits, s'[n'..], w'.kind, at' + n', lits');
        }
    }
  }

  /** Two queries that differ only in the contents of their match values are sent as the same text. */
  lemma {:induction false} TemplateHidesValues(src: string, tokens: seq<Token>, statement: Statement, p: Prepared,
                                               src': string, tokens': seq<Token>, statement': Statement, p': Prepared)
    requires Prepares(src, tokens, statement, p) && Prepares(src', tokens', statement', p')
    requires Alike(src, End, src', End)
    ensures p.template == p'.template
  {
    hide Template, Literals, ParseText, Alike, First;
    SameLiteralCount(src, End, 0, Literals(tokens, End), src', End, 0, Literals(tokens', End));
    SameTemplate(src, End, src', End, 0, |Literals(tokens, End)| == 1);
  }
}
