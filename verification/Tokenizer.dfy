/**
 The SQL tokenizer: one lexeme at a time as a function of the remaining text, and the scanning loop proved against it.
 */
module Tokenizer {
  import opened Base

  const MAX_SQL_LENGTH: nat := 65536
  const MAX_TOKENS: nat := 4096
  const MAX_IDENTIFIER: nat := 256

  datatype Kind =
    | KwSelect | KwCount | KwFrom | KwWhere | KwAnd | KwOr | KwIn | KwLike | KwBetween | KwLimit | KwOffset
    | KwOrder | KwBy | KwAsc | KwDesc | KwDistinct | KwAs | KwCreate | KwTable | KwKey | KwIndex
    | Identifier | Parameter | StringLiteral | NumberLiteral
    | Comma | Star | LParen | RParen | OpEq | OpNe | OpLt | OpLe | OpGt | OpGe | End

  /** What the parser looks at: the kind, and the identifier, parameter name or literal contents. */
  datatype Word = Word(kind: Kind, text: string)

  datatype Token = Token(word: Word, pos: nat)

  // ---- characters ---------------------------------------------------------

  predicate IsSpace(c: char) { c == ' ' || '\t' <= c <= '\r' }
  predicate IsDigit(c: char) { '0' <= c <= '9' }
  predicate IsIdentifierStart(c: char) { 'a' <= c <= 'z' || 'A' <= c <= 'Z' || c == '_' }
  predicate IsIdentifierChar(c: char) { IsIdentifierStart(c) || IsDigit(c) }
  predicate IsQuote(c: char) { c == '\'' || c == '"' }

  function Upper(s: string): (u: string)
    ensures |u| == |s|
  {
    seq(|s|, i requires 0 <= i < |s| => if 'a' <= s[i] <= 'z' then (s[i] as int - 32) as char else s[i])
  }

  function KeywordOrIdentifier(word: string): (k: Kind) {
    var u := Upper(word);
    if u == "SELECT" then KwSelect else if u == "COUNT" then KwCount else if u == "FROM" then KwFrom
    else if u == "WHERE" then KwWhere else if u == "AND" then KwAnd else if u == "OR" then KwOr
    else if u == "IN" then KwIn else if u == "LIKE" then KwLike else if u == "BETWEEN" then KwBetween
    else if u == "LIMIT" then KwLimit else if u == "OFFSET" then KwOffset else if u == "ORDER" then KwOrder
    else if u == "BY" then KwBy else if u == "ASC" then KwAsc else if u == "DESC" then KwDesc
    else if u == "DISTINCT" then KwDistinct else if u == "AS" then KwAs else if u == "CREATE" then KwCreate
    else if u == "TABLE" then KwTable else if u == "KEY" then KwKey else if u == "INDEX" then KwIndex
    else Identifier
  }

  /** The end of the longest stretch from j on whose characters all satisfy p. */
  function Stretch(p: char -> bool, s: string, j: nat): (e: nat)
    requires j <= |s|
    ensures j <= e <= |s| && (forall i :: j <= i < e ==> p(s[i])) && (e < |s| ==> !p(s[e]))
    decreases |s| - j
  {
    if j < |s| && p(s[j]) then Stretch(p, s, j + 1) else j
  }

  lemma {:induction false} StretchUnique(p: char -> bool, s: string, j: nat, e: nat)
    requires j <= e <= |s| && (forall i :: j <= i < e ==> p(s[i])) && (e < |s| ==> !p(s[e]))
    ensures Stretch(p, s, j) == e
  {
  }

  // ---- one lexeme ---------------------------------------------------------

  /** The first thing in a text: a blank, a word with the characters it takes up, or something malformed. */
  datatype Lexeme = Blank | Lexed(word: Word, len: nat) | Bad

  function FirstWord(s: string): (l: Lexeme)
    requires s != ""
  {
    var n := Stretch(IsIdentifierChar, s, 1);
    var kind := KeywordOrIdentifier(s[..n]);
    if n > MAX_IDENTIFIER then Bad else Lexed(Word(kind, if kind == Identifier then s[..n] else ""), n)
  }

  function FirstParameter(s: string): (l: Lexeme)
    requires s != ""
  {
    if |s| < 2 || !IsIdentifierStart(s[1]) then Bad
    else
      var n := Stretch(IsIdentifierChar, s, 2);
      if n - 1 > MAX_IDENTIFIER then Bad else Lexed(Word(Parameter, s[1..n]), n)
  }

  function FirstString(s: string): (l: Lexeme)
    requires s != ""
  {
    var n := Stretch(c => c != s[0], s, 1);
    if n >= |s| || n - 1 > MAX_IDENTIFIER then Bad else Lexed(Word(StringLiteral, s[1..n]), n + 1)
  }

  function FirstNumber(s: string): (l: Lexeme)
    requires s != ""
  {
    var n := Stretch(IsDigit, s, 1);
    Lexed(Word(NumberLiteral, s[..n]), n)
  }

  function FirstOperator(s: string): (l: Lexeme)
    requires s != ""
  {
    var two := |s| > 1;
    if two && s[0] == '<' && s[1] == '=' then Lexed(Word(OpLe, ""), 2)
    else if two && s[0] == '>' && s[1] == '=' then Lexed(Word(OpGe, ""), 2)
    else if two && s[0] == '<' && s[1] == '>' then Lexed(Word(OpNe, ""), 2)
    else if two && s[0] == '!' && s[1] == '=' then Lexed(Word(OpNe, ""), 2)
    else match s[0]
      case ',' => Lexed(Word(Comma, ""), 1)
      case '*' => Lexed(Word(Star, ""), 1)
      case '(' => Lexed(Word(LParen, ""), 1)
      case ')' => Lexed(Word(RParen, ""), 1)
      case '=' => Lexed(Word(OpEq, ""), 1)
      case '<' => Lexed(Word(OpLt, ""), 1)
      case '>' => Lexed(Word(OpGt, ""), 1)
      case _ => Bad
  }

  function First(s: string): (l: Lexeme)
    requires s != ""
    ensures l.Lexed? ==> 0 < l.len <= |s| && l.word.kind != End
  {
    if IsSpace(s[0]) then Blank
    else if IsIdentifierStart(s[0]) then FirstWord(s)
    else if s[0] == ':' then FirstParameter(s)
    else if IsQuote(s[0]) then FirstString(s)
    else if IsDigit(s[0]) then FirstNumber(s)
    else FirstOperator(s)
  }

  // ---- the whole text -----------------------------------------------------

  /** The tokens of a text that starts at offset `at`, closed by the end marker; none if something is malformed. */
  function Lex(s: string, at: nat): (r: Option<seq<Token>>)
    decreases |s|
  {
    if s == "" then Some([Token(Word(End, ""), at)])
    else match First(s)
      case Bad => None
      case Blank => Lex(s[1..], at + 1)
      case Lexed(word, len) =>
        match Lex(s[len..], at + len)
        case None => None
        case Some(rest) => Some([Token(word, at)] + rest)
  }

  function Tokens(s: string): (r: Result<seq<Token>>) {
    if |s| > MAX_SQL_LENGTH then Err(InvalidArgument)
    else match Lex(s, 0)
      case None => Err(InvalidArgument)
      case Some(tokens) => if |tokens| > MAX_TOKENS then Err(InvalidArgument) else Ok(tokens)
  }

  function Plain(tokens: seq<Token>): (words: seq<Word>)
    ensures |words| == |tokens| && forall i :: 0 <= i < |tokens| ==> words[i] == tokens[i].word
  {
    seq(|tokens|, i requires 0 <= i < |tokens| => tokens[i].word)
  }

  // ---- the scanning loop --------------------------------------------------

  method ScanWhile(p: char -> bool, s: string, from: nat, start: nat) returns (j: nat)
    requires from <= start <= |s|
    ensures from <= j <= |s| && j - from == Stretch(p, s[from..], start - from)
  {
    j := start;
    while j < |s| && p(s[j])
      invariant start <= j <= |s| && forall i :: start <= i < j ==> p(s[i])
    {
      j := j + 1;
    }
    StretchUnique(p, s[from..], start - from, j - from);
  }

  /** The lexeme at offset i, scanned in place. */
  method ScanLexeme(s: string, i: nat) returns (l: Lexeme)
    requires i < |s|
    ensures l == First(s[i..])
  {
    var c := s[i];
    var n := |s|;
    ghost var rest := s[i..];
    if IsSpace(c) {
      return Blank;
    }
    if IsIdentifierStart(c) {
      var j := ScanWhile(IsIdentifierChar, s, i, i + 1);
      var word := s[i..j];
      assert word == rest[..j - i];
      if |word| > MAX_IDENTIFIER {
        return Bad;
      }
      var kind := KeywordOrIdentifier(word);
      return Lexed(Word(kind, if kind == Identifier then word else ""), j - i);
    }
    if c == ':' {
      if i + 1 >= n || !IsIdentifierStart(s[i + 1]) {
        return Bad;
      }
      var j := ScanWhile(IsIdentifierChar, s, i, i + 2);
      var name := s[i + 1..j];
      assert name == rest[1..j - i];
      return if |name| > MAX_IDENTIFIER then Bad else Lexed(Word(Parameter, name), j - i);
    }
    if IsQuote(c) {
      l := ScanString(s, i);
      return;
    }
    if IsDigit(c) {
      var j := ScanWhile(IsDigit, s, i, i + 1);
      assert s[i..j] == rest[..j - i];
      return Lexed(Word(NumberLiteral, s[i..j]), j - i);
    }
    l := FirstOperator(s[i..]);
  }

  /** Looks for the closing quote, giving up as soon as the literal is too long. */
  method ScanString(s: string, i: nat) returns (l: Lexeme)
    requires i < |s|
    ensures l == FirstString(s[i..])
  {
    ghost var rest := s[i..];
    ghost var e := Stretch(c => c != rest[0], rest, 1);
    var j := i + 1;
    while j < |s| && s[j] != s[i]
      invariant i < j <= |s| && j - i - 1 <= MAX_IDENTIFIER && forall k :: i < k < j ==> s[k] != s[i]
    {
      if j - i > MAX_IDENTIFIER {
        assert e < |rest| ==> rest[e] == s[i + e];
        assert rest[j - i] == s[j];
        return Bad;
      }
      j := j + 1;
    }
    StretchUnique(c => c != rest[0], rest, 1, j - i);
    if j >= |s| {
      return Bad;
    }
    assert s[i + 1..j] == rest[1..j - i];
    l := Lexed(Word(StringLiteral, s[i + 1..j]), j - i + 1);
  }

  lemma {:induction false} FirstInRange(s: string)
    requires s != ""
    ensures First(s).Lexed? ==> 0 < First(s).len <= |s|
  {
  }

  /** The tokens found before offset i, with those the rest of the text yields, are all there are. */
  ghost predicate SoFar(sql: string, i: nat, tokens: seq<Token>)
    requires i <= |sql|
  {
    match Lex(sql[i..], i) case None => Lex(sql, 0) == None case Some(more) => Lex(sql, 0) == Some(tokens + more)
  }

  lemma {:induction false} NothingSoFar(sql: string)
    ensures SoFar(sql, 0, [])
  {
    hide First, Lex;
    assert sql[0..] == sql;
    if Lex(sql, 0).Some? {
      assert [] + Lex(sql, 0).value == Lex(sql, 0).value;
    }
  }

  lemma {:induction false} PastBlank(sql: string, i: nat, tokens: seq<Token>)
    requires i < |sql| && SoFar(sql, i, tokens) && First(sql[i..]).Blank?
    ensures SoFar(sql, i + 1, tokens)
  {
    hide First;
    assert sql[i..][1..] == sql[i + 1..];
  }

  lemma {:induction false} AtBad(sql: string, i: nat, tokens: seq<Token>)
    requires i < |sql| && SoFar(sql, i, tokens) && First(sql[i..]).Bad?
    ensures Tokens(sql) == Err(InvalidArgument)
  {
    hide First;
  }

  lemma {:induction false} PastWord(sql: string, i: nat, tokens: seq<Token>, w: Word, n: nat)
    requires i < |sql| && SoFar(sql, i, tokens) && First(sql[i..]) == Lexed(w, n) && 0 < n <= |sql| - i
    ensures SoFar(sql, i + n, tokens + [Token(w, i)])
  {
    hide First;
    var t := Token(w, i);
    assert sql[i..][n..] == sql[i + n..];
    var rest := Lex(sql[i + n..], i + n);
    if rest.Some? {
      assert tokens + ([t] + rest.value) == tokens + [t] + rest.value;
    }
  }

  lemma {:induction false} TooMany(sql: string, i: nat, tokens: seq<Token>)
    requires i <= |sql| && SoFar(sql, i, tokens) && |tokens| >= MAX_TOKENS
    ensures Tokens(sql) == Err(InvalidArgument)
  {
    LexNonEmpty(sql[i..], i);
    hide First, Lex;
  }

  lemma {:induction false} AtEnd(sql: string, tokens: seq<Token>)
    requires SoFar(sql, |sql|, tokens) && |tokens| < MAX_TOKENS && |sql| <= MAX_SQL_LENGTH
    ensures Tokens(sql) == Ok(tokens + [Token(Word(End, ""), |sql|)])
  {
    assert sql[|sql|..] == "";
    assert Lex("", |sql|) == Some([Token(Word(End, ""), |sql|)]);
    hide First, Lex;
  }

  /** Takes the lexeme at offset i; fails on something malformed and on one token too many. */
  method TakeLexeme(sql: string, i: nat, tokens: seq<Token>) returns (ok: bool, next: nat, more: seq<Token>)
    requires i < |sql| && SoFar(sql, i, tokens) && |tokens| <= MAX_TOKENS
    ensures !ok ==> Tokens(sql) == Err(InvalidArgument)
    ensures ok ==> i < next <= |sql| && SoFar(sql, next, more) && |more| <= MAX_TOKENS
  {
    hide First, SoFar, Tokens, Lex;
    ok, next, more := true, i + 1, tokens;
    var l := ScanLexeme(sql, i);
    FirstInRange(sql[i..]);
    match l
    case Blank => PastBlank(sql, i, tokens);
    case Bad =>
      AtBad(sql, i, tokens);
      ok := false;
    case Lexed(w, n) =>
      if |tokens| >= MAX_TOKENS {
        TooMany(sql, i, tokens);
        ok := false;
      } else {
        PastWord(sql, i, tokens, w, n);
        next, more := i + n, tokens + [Token(w, i)];
      }
  }

  method Tokenize(sql: string) returns (r: Result<seq<Token>>)
    ensures r == Tokens(sql)
  {
    if |sql| > MAX_SQL_LENGTH {
      return Err(InvalidArgument);
    }
    r := TokenizeShort(sql);
  }

  method TokenizeShort(sql: string) returns (r: Result<seq<Token>>)
    requires |sql| <= MAX_SQL_LENGTH
    ensures r == Tokens(sql)
  {
    hide First, SoFar, Tokens, Lex;
    var tokens: seq<Token> := [];
    var i := 0;
    NothingSoFar(sql);
    while i < |sql|
      invariant 0 <= i <= |sql| && |tokens| <= MAX_TOKENS && SoFar(sql, i, tokens)
    {
      var ok;
      ok, i, tokens := TakeLexeme(sql, i, tokens);
      if !ok {
        return Err(InvalidArgument);
      }
    }
    if |tokens| >= MAX_TOKENS {
      TooMany(sql, i, tokens);
      return Err(InvalidArgument);
    }
    AtEnd(sql, tokens);
    tokens := tokens + [Token(Word(End, ""), |sql|)];
    r := Ok(tokens);
  }

  lemma {:induction false} LexNonEmpty(s: string, at: nat)
    ensures Lex(s, at).Some? ==> Lex(s, at).value != []
    decreases |s|
  {
    if s != "" && First(s).Blank? {
      LexNonEmpty(s[1..], at + 1);
    }
  }
}
