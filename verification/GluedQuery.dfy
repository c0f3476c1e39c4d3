/** A query the client accepts and the server refuses: its first literal is glued to the next word. */
module GluedQuery {
  import opened Base
  import opened Tokenizer
  import opened Lifting
  import opened Parser
  import opened LiftedStatement
  import opened Gluing
  import opened ClientQuery

  /** SELECT*FROM T WHERE A=1OR A=2 */
  const GLUED: string := "SELECT" + ("*" + ("FROM" + TABLE))
  const TABLE: string := " " + ("T" + (" " + ("WHERE" + FILTER)))
  const FILTER: string := " A=1OR A=2"

  /** An upper-case word in front of something that does not go on with it. */
  lemma {:induction false} WordInFront(word: string, rest: string)
    requires 0 < |word| <= MAX_IDENTIFIER && forall i :: 0 <= i < |word| ==> 'A' <= word[i] <= 'Z'
    requires rest != "" && !IsIdentifierChar(rest[0]) && WordsOf(rest).Some?
    ensures var kind := KeywordOrIdentifier(word);
            && WordsOf(word + rest) == Some([Word(kind, if kind == Identifier then word else "")] + WordsOf(rest).value)
            && forall prev :: Glued(rest, kind) ==> Glued(word + rest, prev)
  {
    hide WordsOf, KeywordOrIdentifier;
    var s, n := word + rest, |word|;
    assert s[..n] == word && s[n..] == rest && s[n] == rest[0];
    assert forall i :: 0 <= i < n ==> s[i] == word[i];
    StretchUnique(IsIdentifierChar, s, 1, n);
    WordsOfLexed(s, First(s).word, n);
  }

  lemma {:induction false} UpperIsItself(word: string)
    requires forall i :: 0 <= i < |word| ==> 'A' <= word[i] <= 'Z'
    ensures Upper(word) == word
  {
  }

  lemma {:induction false} IsSelect()
    ensures KeywordOrIdentifier("SELECT") == KwSelect
  {
    UpperIsItself("SELECT");
    hide Upper;
  }

  lemma {:induction false} IsFrom()
    ensures KeywordOrIdentifier("FROM") == KwFrom
  {
    UpperIsItself("FROM");
    hide Upper;
  }

  lemma {:induction false} IsWhere()
    ensures KeywordOrIdentifier("WHERE") == KwWhere
  {
    UpperIsItself("WHERE");
    hide Upper;
  }

  lemma {:induction false} IsOr()
    ensures KeywordOrIdentifier("OR") == KwOr
  {
    UpperIsItself("OR");
    hide Upper;
  }

  lemma {:induction false} IsT()
    ensures KeywordOrIdentifier("T") == Identifier
  {
    UpperIsItself("T");
    hide Upper;
  }

  lemma {:induction false} IsA()
    ensures KeywordOrIdentifier("A") == Identifier
  {
    UpperIsItself("A");
    hide Upper;
  }

  lemma {:induction false} SpaceInFront(rest: string)
    ensures WordsOf(" " + rest) == WordsOf(rest) && forall prev :: Glued(rest, prev) ==> Glued(" " + rest, prev)
  {
    hide WordsOf;
    assert (" " + rest)[1..] == rest;
    WordsOfBlank(" " + rest);
  }

  /** A one-character word in front: an operator, or a digit no other digit follows. */
  lemma {:induction false} CharInFront(c: char, rest: string, kind: Kind)
    requires (c == '=' && kind == OpEq) || (c == '*' && kind == Star) || (IsDigit(c) && kind == NumberLiteral)
    requires (rest != "" ==> !IsDigit(rest[0])) || !IsDigit(c)
    requires WordsOf(rest).Some?
    ensures WordsOf([c] + rest) == Some([Word(kind, if kind == NumberLiteral then [c] else "")] + WordsOf(rest).value)
    ensures forall prev :: Glued(rest, kind) ==> Glued([c] + rest, prev)
    ensures kind == NumberLiteral && rest != "" && IsIdentifierStart(rest[0]) ==> Glued([c] + rest, OpEq)
  {
    hide WordsOf;
    var s := [c] + rest;
    assert s[1..] == rest && s[..1] == [c] && (rest != "" ==> s[1] == rest[0]);
    if IsDigit(c) {
      StretchUnique(IsDigit, s, 1, 1);
    }
    WordsOfLexed(s, First(s).word, 1);
  }

  const WORDS: seq<Word> := [
    Word(KwSelect, ""), Word(Star, ""), Word(KwFrom, ""), Word(Identifier, "T"), Word(KwWhere, ""),
    Word(Identifier, "A"), Word(OpEq, ""), Word(NumberLiteral, "1"), Word(KwOr, ""),
    Word(Identifier, "A"), Word(OpEq, ""), Word(NumberLiteral, "2"), Word(End, "")]

  /** Some literal of what stands from word i on is glued. */
  ghost predicate GluedAt(s: string, i: nat)
    requires i <= |WORDS|
  {
    Glued(s, if i == 0 then End else WORDS[i - 1].kind)
  }

  lemma {:induction false} Peel(i: nat)
    requires i < |WORDS|
    ensures WORDS[i..] == [WORDS[i]] + WORDS[i + 1..]
  {
  }

  lemma {:induction false} WordAt(word: string, rest: string, i: nat)
    requires 0 < |word| <= MAX_IDENTIFIER && forall j :: 0 <= j < |word| ==> 'A' <= word[j] <= 'Z'
    requires rest != "" && !IsIdentifierChar(rest[0]) && i < |WORDS| && WordsOf(rest) == Some(WORDS[i + 1..])
    requires var kind := KeywordOrIdentifier(word); WORDS[i] == Word(kind, if kind == Identifier then word else "")
    ensures WordsOf(word + rest) == Some(WORDS[i..])
    ensures GluedAt(rest, i + 1) ==> GluedAt(word + rest, i)
  {
    hide WordsOf, KeywordOrIdentifier, Glued;
    WordInFront(word, rest);
    Peel(i);
  }

  lemma {:induction false} CharAt(c: char, rest: string, kind: Kind, i: nat)
    requires (c == '=' && kind == OpEq) || (c == '*' && kind == Star) || (IsDigit(c) && kind == NumberLiteral)
    requires (rest != "" ==> !IsDigit(rest[0])) || !IsDigit(c)
    requires i < |WORDS| && WordsOf(rest) == Some(WORDS[i + 1..])
    requires WORDS[i] == Word(kind, if kind == NumberLiteral then [c] else "")
    ensures WordsOf([c] + rest) == Some(WORDS[i..])
    ensures GluedAt(rest, i + 1) ==> GluedAt([c] + rest, i)
    ensures kind == NumberLiteral && rest != "" && IsIdentifierStart(rest[0]) && i > 0 && WORDS[i - 1].kind == OpEq ==>
              GluedAt([c] + rest, i)
  {
    hide WordsOf, Glued;
    CharInFront(c, rest, kind);
    Peel(i);
  }

  lemma {:induction false} SecondValue()
    ensures WordsOf("=2") == Some(WORDS[10..])
  {
    hide WordsOf;
    WordsOfNone();
    assert WORDS[12..] == [Word(End, "")];
    CharAt('2', "", NumberLiteral, 11);
    CharAt('=', ['2'] + "", OpEq, 10);
    assert ['='] + (['2'] + "") == "=2";
  }

  lemma {:induction false} LastWords()
    ensures WordsOf("OR A=2") == Some(WORDS[8..])
  {
    hide WordsOf, KeywordOrIdentifier;
    SecondValue();
    IsA();
    IsOr();
    WordAt("A", "=2", 9);
    SpaceInFront("A" + "=2");
    WordAt("OR", " " + ("A" + "=2"), 8);
    assert "OR" + (" " + ("A" + "=2")) == "OR A=2";
  }

  lemma {:induction false} FirstValue()
    ensures WordsOf("=1OR A=2") == Some(WORDS[6..]) && GluedAt("=1OR A=2", 6)
  {
    hide WordsOf, KeywordOrIdentifier, Glued;
    LastWords();
    CharAt('1', "OR A=2", NumberLiteral, 7);
    CharAt('=', ['1'] + "OR A=2", OpEq, 6);
    assert ['='] + (['1'] + "OR A=2") == "=1OR A=2";
  }

  lemma {:induction false} FilterWords()
    ensures WordsOf(" A=1OR A=2") == Some(WORDS[5..]) && GluedAt(" A=1OR A=2", 5)
  {
    hide WordsOf, KeywordOrIdentifier, Glued;
    IsA();
    FirstValue();
    WordAt("A", "=1OR A=2", 5);
    SpaceInFront("A" + "=1OR A=2");
    assert " " + ("A" + "=1OR A=2") == " A=1OR A=2";
  }

  lemma {:induction false} TableWords()
    ensures WordsOf(TABLE) == Some(WORDS[3..]) && GluedAt(TABLE, 3)
  {
    hide WordsOf, KeywordOrIdentifier, Glued;
    IsWhere();
    IsT();
    FilterWords();
    WordAt("WHERE", FILTER, 4);
    SpaceInFront("WHERE" + FILTER);
    WordAt("T", " " + ("WHERE" + FILTER), 3);
    SpaceInFront("T" + (" " + ("WHERE" + FILTER)));
  }

  lemma {:induction false} GluedWords()
    ensures WordsOf(GLUED) == Some(WORDS) && Glued(GLUED, End)
  {
    hide WordsOf, KeywordOrIdentifier, Glued;
    IsFrom();
    IsSelect();
    TableWords();
    WordAt("FROM", TABLE, 2);
    CharAt('*', "FROM" + TABLE, Star, 1);
    WordAt("SELECT", ['*'] + ("FROM" + TABLE), 0);
    assert WORDS[0..] == WORDS;
  }

  const STATEMENT: Statement := Statement(
    false, All, "T", Some(Or(Compare("A", CmpEq, Literal(Int(1))), Compare("A", CmpEq, Literal(Int(2))))), [], None,
        None)

  lemma {:induction false} Digits()
    ensures Atoi("1", MAX_INT64) == Some(1) && Atoi("2", MAX_INT64) == Some(2)
  {
    assert "1"[..0] == "" && "2"[..0] == "";
  }

  lemma {:induction false} ComparisonAt(words: seq<Word>, pos: nat, digit: string, n: nat)
    requires pos + 3 < |words| && words[pos] == Word(Identifier, "A") && words[pos + 1].kind == OpEq
    requires words[pos + 2] == Word(NumberLiteral, digit) && Atoi(digit, MAX_INT64) == Some(n)
    requires words[pos + 3].kind != KwAnd
    ensures ParseOrTerm(words, pos) == Some((Compare("A", CmpEq, Literal(Int(n))), pos + 3))
  {
    hide Atoi, ParseIn, ParseBetween, ParseLike;
    assert ParseParam(words, pos + 2) == Some((Literal(Int(n)), pos + 3));
    assert ParseComparison(words, pos) == Some((Compare("A", CmpEq, Literal(Int(n))), pos + 3));
  }

  lemma {:induction false} FilterParses(words: seq<Word>, left: Pred, right: Pred)
    requires |words| == 13 && words[4].kind == KwWhere && words[8].kind == KwOr && words[12].kind == End
    requires ParseOrTerm(words, 5) == Some((left, 8)) && ParseOrTerm(words, 9) == Some((right, 12))
    ensures ParseWhere(words, 4) == Some((Some(Or(left, right)), 12))
  {
    hide ParseOrTerm;
    assert ParseOrs(words, 12, Or(left, right)) == Some((Or(left, right), 12));
  }

  lemma {:induction false} EndsParse(words: seq<Word>)
    requires |words| == 13 && words[0].kind == KwSelect && words[1].kind == Star && words[2].kind == KwFrom
    requires words[3] == Word(Identifier, "T") && words[12].kind == End
    ensures ParseHead(words) == Some(((false, All, "T"), 4)) && ParseTail(words, 12) == Some(([], None, None))
  {
    hide ParseColumns, ParseOrderBy, ParseCount;
  }

  lemma {:induction false} WordsParse(words: seq<Word>, left: Pred, right: Pred)
    requires |words| == 13 && words[0].kind == KwSelect && words[1].kind == Star && words[2].kind == KwFrom
    requires words[3] == Word(Identifier, "T") && words[12].kind == End
    requires ParseWhere(words, 4) == Some((Some(Or(left, right)), 12))
    ensures ParseStatement(words) == Some(Statement(false, All, "T", Some(Or(left, right)), [], None, None))
  {
    hide ParseHead, ParseTail, ParseWhere;
    EndsParse(words);
  }

  lemma {:induction false} OneTermParses()
    ensures ParseOrTerm(WORDS, 5) == Some((Compare("A", CmpEq, Literal(Int(1))), 8))
  {
    hide ParseOrTerm, Atoi;
    Digits();
    ComparisonAt(WORDS, 5, "1", 1);
  }

  lemma {:induction false} OtherTermParses()
    ensures ParseOrTerm(WORDS, 9) == Some((Compare("A", CmpEq, Literal(Int(2))), 12))
  {
    hide ParseOrTerm, Atoi;
    Digits();
    ComparisonAt(WORDS, 9, "2", 2);
  }

  lemma {:induction false} GluedParses()
    ensures ParseStatement(WORDS) == Some(STATEMENT)
  {
    hide ParseStatement, ParseWhere, ParseOrTerm;
    var left, right := Compare("A", CmpEq, Literal(Int(1))), Compare("A", CmpEq, Literal(Int(2)));
    OneTermParses();
    OtherTermParses();
    FilterParses(WORDS, left, right);
    WordsParse(WORDS, left, right);
  }

  /** Numbers that stand for something have values. */
  lemma {:induction false} ValuesExist(lits: seq<Token>)
    requires forall i :: 0 <= i < |lits| ==> ValueOf(lits[i].word).Some?
    ensures ValuesOf(lits).Some?
  {
    hide ValueOf;
    if lits != [] {
      ValuesExist(lits[..|lits| - 1]);
    }
  }

  lemma {:induction false} LiteralsAreTokens(tokens: seq<Token>, prev: Kind)
    ensures forall i :: 0 <= i < |Literals(tokens, prev)| ==> Literals(tokens, prev)[i] in tokens
  {
    if tokens != [] {
      LiteralsAreTokens(tokens[1..], tokens[0].word.kind);
    }
  }

  /** The client prepares it, although its template cannot be read back; the server refuses the template. */
  lemma {:induction false} GluedQueryHappens() returns (tokens: seq<Token>, p: Prepared)
    ensures Prepares(GLUED, tokens, STATEMENT, p) && Glued(GLUED, End)
    ensures ParseText(p.template).Err?
  {
    hide KeywordOrIdentifier, Glued, ParseStatement, Literals, Template, ValuesOf, Lex, Atoi;
    GluedWords();
    GluedParses();
    Digits();
    tokens := Lex(GLUED, 0).value;
    assert Plain(tokens) == WORDS;
    LiteralsAreTokens(tokens, End);
    var lits := Literals(tokens, End);
    forall i | 0 <= i < |lits|
      ensures ValueOf(lits[i].word).Some?
    {
      var j :| 0 <= j < |tokens| && tokens[j] == lits[i];
      assert WORDS[j] == lits[i].word;
    }
    ValuesExist(lits);
    p := Prepared(Template(GLUED, End, 0, |lits| == 1), ValuesOf(lits).value, false, None, None);
    CleanIsTrimmed(GLUED);
    hide TrimStatement;
    GluedIsRefused(GLUED, GLUED, tokens, STATEMENT, p);
  }
}
